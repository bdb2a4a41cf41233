/**
 Values of Rust types on the wire: leaves, `Option`, `Vec`, and the encoders and decoders
 that the derive macros generate for enums, domains and composites.
 */
module Values {
  import opened Bytes
  import opened Wrappers
  import opened Sequences
  import opened Types
  import opened Slots
  import opened Arrays

  /** A Rust type, as far as its conversions go. Composite members are in the struct's own order. */
  datatype Shape =
    | Int4
    | Text
    | Bytea
    | Nullable(inner: Shape)
    | EnumOf(enumName: string, variants: seq<seq<byte>>, allowMismatch: bool)
    | DomainOf(domainName: string, wrapped: Shape)
    | CompositeOf(structName: string, members: seq<Member>)
    | VecOf(element: Shape)

  datatype Member = Member(name: string, shape: Shape)

  datatype Datum =
    | Number(n: i32)
    | Data(bytes: seq<byte>)
    | Absent
    | Present(datum: Datum)
    | Variant(index: nat)
    | Wrapped(inside: Datum)
    | Record(parts: seq<Datum>)
    | Items(items: seq<Datum>)

  datatype Error = TooLarge | Invalid | WasNull | Panic

  predicate HasShape(v: Datum, s: Shape)
    decreases s
  {
    match s
    case Int4 => v.Number?
    case Text => v.Data?
    case Bytea => v.Data?
    case Nullable(inner) => v.Absent? || (v.Present? && HasShape(v.datum, inner))
    case EnumOf(_, variants, _) => v.Variant? && v.index < |variants|
    case DomainOf(_, wrapped) => v.Wrapped? && HasShape(v.inside, wrapped)
    case CompositeOf(_, members) =>
      v.Record? && |v.parts| == |members| && forall i :: 0 <= i < |members| ==> HasShape(v.parts[i], members[i].shape)
    case VecOf(element) => v.Items? && forall i :: 0 <= i < |v.items| ==> HasShape(v.items[i], element)
  }

  predicate AllShaped(items: seq<Datum>, element: Shape) {
    forall i :: 0 <= i < |items| ==> HasShape(items[i], element)
  }

  // ---- Which server types a Rust type accepts ----

  // The arm of the generated `match` that a field name selects.
  function MemberIndex(members: seq<Member>, name: string): (r: Option<nat>)
    ensures r.Some? ==> r.value < |members| && members[r.value].name == name
    ensures r.None? ==> forall i :: 0 <= i < |members| ==> members[i].name != name
  {
    if members == [] then None
    else if members[0].name == name then Some(0)
    else match MemberIndex(members[1..], name)
      case None => None
      case Some(i) => Some(i + 1)
  }

  function VariantIndex(variants: seq<seq<byte>>, name: seq<byte>): (r: Option<nat>)
    ensures r.Some? ==> r.value < |variants| && variants[r.value] == name
    ensures r.None? ==> name !in variants
  {
    if variants == [] then None
    else if variants[0] == name then Some(0)
    else match VariantIndex(variants[1..], name)
      case None => None
      case Some(i) => Some(i + 1)
  }

  predicate EnumAccepts(s: Shape, ty: Type)
    requires s.EnumOf?
  {
    ty.name == s.enumName &&
    (s.allowMismatch ||
     (ty.kind.Enum? && |ty.kind.variants| == |s.variants| &&
      forall i :: 0 <= i < |ty.kind.variants| ==> ty.kind.variants[i] in s.variants))
  }

  predicate ToSqlAccepts(s: Shape, ty: Type)
    decreases s
  {
    match s
    case Int4 => ty == INT4
    case Text => ty == TEXT
    case Bytea => ty == BYTEA
    case Nullable(inner) => ToSqlAccepts(inner, ty)
    case EnumOf(_, _, _) => EnumAccepts(s, ty)
    case DomainOf(name, wrapped) => ty.name == name && ty.kind.Domain? && ToSqlAccepts(wrapped, ty.kind.base)
    case CompositeOf(name, members) =>
      ty.name == name && ty.kind.Composite? && |ty.kind.fields| == |members| &&
      forall k :: 0 <= k < |ty.kind.fields| ==>
        var i := MemberIndex(members, ty.kind.fields[k].name);
        i.Some? && ToSqlAccepts(members[i.value].shape, ty.kind.fields[k].type_)
    case VecOf(element) => ty.kind.Array? && ToSqlAccepts(element, ty.kind.member)
  }

  /** Reading a domain also accepts whatever the wrapped type accepts. */
  predicate FromSqlAccepts(s: Shape, ty: Type)
    decreases s
  {
    match s
    case Int4 => ty == INT4
    case Text => ty == TEXT
    case Bytea => ty == BYTEA
    case Nullable(inner) => FromSqlAccepts(inner, ty)
    case EnumOf(_, _, _) => EnumAccepts(s, ty)
    case DomainOf(_, wrapped) => FromSqlAccepts(wrapped, ty) || ToSqlAccepts(s, ty)
    case CompositeOf(name, members) =>
      ty.name == name && ty.kind.Composite? && |ty.kind.fields| == |members| &&
      forall k :: 0 <= k < |ty.kind.fields| ==>
        var i := MemberIndex(members, ty.kind.fields[k].name);
        i.Some? && FromSqlAccepts(members[i.value].shape, ty.kind.fields[k].type_)
    case VecOf(element) => ty.kind.Array? && FromSqlAccepts(element, ty.kind.member)
  }

  /** What can be written to a type can be read from it. */
  lemma {:induction false} ReadsWhatItWrites(s: Shape, ty: Type)
    requires ToSqlAccepts(s, ty)
    ensures FromSqlAccepts(s, ty)
    decreases s
  {
    match s {
      case Nullable(inner) => ReadsWhatItWrites(inner, ty);
      case VecOf(element) => ReadsWhatItWrites(element, ty.kind.member);
      case CompositeOf(_, members) =>
        forall k | 0 <= k < |ty.kind.fields|
          ensures FromSqlAccepts(members[MemberIndex(members, ty.kind.fields[k].name).value].shape,
            ty.kind.fields[k].type_)
        {
          ReadsWhatItWrites(members[MemberIndex(members, ty.kind.fields[k].name).value].shape, ty.kind.fields[k].type_);
        }
      case _ =>
    }
  }

  // ---- Encoding ----

  // `oidvector` and `int2vector` count from zero, every other array from one.
  function LowerBound(ty: Type): i32 {
    if ty.oid == OID_VECTOR_OID || ty.oid == INT2_VECTOR_OID then 0 else 1
  }

  /** The bytes of a value, or `None` for NULL. */
  function Encode(v: Datum, s: Shape, ty: Type): Result<Value, Error>
    requires HasShape(v, s) && ToSqlAccepts(s, ty)
    decreases s, 1, 0
  {
    match s
    case Int4 => Ok(Some(I32Bytes(v.n)))
    case Text => Ok(Some(v.bytes))
    case Bytea => Ok(Some(v.bytes))
    case Nullable(inner) => if v.Absent? then Ok(None) else Encode(v.datum, inner, ty)
    case EnumOf(_, variants, _) => Ok(Some(variants[v.index]))
    case DomainOf(_, wrapped) => Encode(v.inside, wrapped, ty.kind.base)
    case CompositeOf(_, _) =>
      (match EncodeFields(v, s, ty, 0)
       case Err(e) => Err(e)
       case Ok(b) => Ok(Some(I32Bytes(WrapI32(|ty.kind.fields|)) + b)))
    case VecOf(element) =>
      if |v.items| > I32_MAX then Err(TooLarge)
      else match EncodeItems(v.items, element, ty.kind.member)
        case Err(e) => Err(e)
        case Ok(vs) => Ok(Some(ArrayWire([Dimension(|v.items|, LowerBound(ty))], ty.kind.member.oid, vs)))
  }

  // The `k`-th field in the server's order: its type, then its slot.
  function EncodeField(v: Datum, s: Shape, ty: Type, k: nat): Result<seq<byte>, Error>
    requires s.CompositeOf? && HasShape(v, s) && ToSqlAccepts(s, ty) && k < |ty.kind.fields|
    decreases s, 0, 0
  {
    var f := ty.kind.fields[k];
    var i := MemberIndex(s.members, f.name).value;
    match Slotted(Encode(v.parts[i], s.members[i].shape, f.type_))
    case Err(e) => Err(e)
    case Ok(x) => Ok(U32Bytes(f.type_.oid) + Slot(x))
  }

  function EncodeFields(v: Datum, s: Shape, ty: Type, k: nat): Result<seq<byte>, Error>
    requires s.CompositeOf? && HasShape(v, s) && ToSqlAccepts(s, ty) && k <= |ty.kind.fields|
    decreases s, 0, |ty.kind.fields| - k
  {
    if k == |ty.kind.fields| then Ok([])
    else match EncodeField(v, s, ty, k)
      case Err(e) => Err(e)
      case Ok(piece) => After(piece, EncodeFields(v, s, ty, k + 1))
  }

  // A value with its length in front must have a length that fits.
  function Slotted(r: Result<Value, Error>): (r': Result<Value, Error>)
    ensures r'.Ok? ==> Fits(r'.value) && r == r'
  {
    if r.Ok? && !Fits(r.value) then Err(TooLarge) else r
  }

  function EncodeItems(items: seq<Datum>, element: Shape, member: Type): (r: Result<seq<Value>, Error>)
    requires AllShaped(items, element) && ToSqlAccepts(element, member)
    ensures r.Ok? ==> AllFit(r.value) && |r.value| == |items|
    decreases element, 2, |items|
  {
    if items == [] then Ok([])
    else match Slotted(Encode(items[0], element, member))
      case Err(e) => Err(e)
      case Ok(x) => After([x], EncodeItems(items[1..], element, member))
  }

  // ---- Decoding ----

  function Mapped(r: Result<Datum, Error>, f: Datum -> Datum): Result<Datum, Error> {
    match r case Err(e) => Err(e) case Ok(v) => Ok(f(v))
  }

  /** `from_sql_nullable`; the panics of the generated code are an error of their own. */
  function Decode(s: Shape, ty: Type, raw: Value): Result<Datum, Error>
    decreases s, 1, 0
  {
    match raw
    case None => if s.Nullable? then Ok(Absent) else Err(WasNull)
    case Some(b) =>
      match s
      case Int4 => if |b| == 4 then Ok(Number(I32Of(b))) else Err(Invalid)
      case Text => Ok(Data(b))
      case Bytea => Ok(Data(b))
      case Nullable(inner) => Mapped(Decode(inner, ty, raw), v => Present(v))
      case EnumOf(_, variants, _) =>
        (match VariantIndex(variants, b) case None => Err(Invalid) case Some(i) => Ok(Variant(i)))
      case DomainOf(_, wrapped) =>
        Mapped(Decode(wrapped, if ty.kind.Domain? then ty.kind.base else ty, raw), v => Wrapped(v))
      case CompositeOf(_, members) =>
        if !ty.kind.Composite? then Err(Panic)
        else (match ReadI32(b)
              case None => Err(Invalid)
              case Some((count, rest)) =>
                if count != |ty.kind.fields| then Err(Invalid)
                else match DecodeFields(s, ty.kind.fields, 0, rest, seq(|members|, _ => None))
                  case Err(e) => Err(e)
                  case Ok(temps) => if AllSet(temps) then Ok(Record(Unwrapped(temps))) else Err(Panic))
      case VecOf(element) =>
        if !ty.kind.Array? then Err(Panic)
        else (match ParseArray(b)
              case Err(_) => Err(Invalid)
              case Ok(a) =>
                if a.dimensions > 1 then Err(Invalid)
                else match DecodeItems(element, ty.kind.member, a.buf[a.dimensions * 8..], a.elements)
                  case Err(e) => Err(e)
                  case Ok(vs) => Ok(Items(vs)))
  }

  predicate AllSet(temps: seq<Option<Datum>>) {
    forall i :: 0 <= i < |temps| ==> temps[i].Some?
  }

  function Unwrapped(temps: seq<Option<Datum>>): (r: seq<Datum>)
    requires AllSet(temps)
    ensures |r| == |temps| && forall i :: 0 <= i < |r| ==> temps[i] == Some(r[i])
  {
    seq(|temps|, i requires 0 <= i < |temps| && temps[i].Some? => temps[i].value)
  }

  // The fields from the `k`-th on, each into the temporary of its member.
  function DecodeFields(s: Shape, fields: seq<Field>, k: nat, b: seq<byte>, temps: seq<Option<Datum>>)
    : (r: Result<seq<Option<Datum>>, Error>)
    requires s.CompositeOf? && k <= |fields| && |temps| == |s.members|
    ensures r.Ok? ==> |r.value| == |temps|
    decreases s, 0, |fields| - k
  {
    if k == |fields| then Ok(temps)
    else match ReadI32(b)
      case None => Err(Invalid)
      case Some((oid, rest)) =>
        if U32FromI32(oid) != fields[k].type_.oid then Err(Invalid)
        else match MemberIndex(s.members, fields[k].name)
          case None => Err(Panic)
          case Some(i) =>
            match ReadSlot(rest)
            case None => Err(Invalid)
            case Some((x, rest')) =>
              match Decode(s.members[i].shape, fields[k].type_, x)
              case Err(e) => Err(e)
              case Ok(v) => DecodeFields(s, fields, k + 1, rest', temps[i := Some(v)])
  }

  function DecodeItems(element: Shape, member: Type, b: seq<byte>, remaining: nat): Result<seq<Datum>, Error>
    decreases element, 2, remaining
  {
    if remaining == 0 then (if b == [] then Ok([]) else Err(Invalid))
    else match ReadSlot(b)
      case None => Err(Invalid)
      case Some((x, rest)) =>
        match Decode(element, member, x)
        case Err(e) => Err(e)
        case Ok(v) =>
          After([v], DecodeItems(element, member, rest, remaining - 1))
  }

  // ---- The encoder, on the shared buffer ----

  /** `to_sql`: appends the value and says whether it is NULL; nothing before it changes. */
  method ToSql(v: Datum, s: Shape, ty: Type, buf: BytesMut) returns (r: Result<bool, Error>)
    requires HasShape(v, s) && ToSqlAccepts(s, ty)
    modifies buf
    ensures old(buf.data) <= buf.data
    ensures r == (match Encode(v, s, ty) case Err(e) => Err(e) case Ok(x) => Ok(x.None?))
    ensures Encode(v, s, ty) == Ok(None) ==> buf.data == old(buf.data)
    ensures Encode(v, s, ty).Ok? && Encode(v, s, ty).value.Some? ==>
      buf.data == old(buf.data) + Encode(v, s, ty).value.value
    decreases s, 1, 0
  {
    hide I32Bytes, EncodeFields, EncodeItems, ArrayWire;
    match s {
      case Int4 =>
        buf.Put(I32Bytes(v.n));
        return Ok(false);
      case Text =>
        buf.Put(v.bytes);
        return Ok(false);
      case Bytea =>
        buf.Put(v.bytes);
        return Ok(false);
      case Nullable(inner) =>
        if v.Absent? {
          return Ok(true);
        }
        r := ToSql(v.datum, inner, ty, buf);
      case EnumOf(_, variants, _) =>
        buf.Put(variants[v.index]);
        return Ok(false);
      case DomainOf(_, wrapped) =>
        r := ToSql(v.inside, wrapped, ty.kind.base, buf);
      case CompositeOf(_, _) =>
        r := CompositeToSql(v, s, ty, buf);
      case VecOf(_) =>
        r := VecToSql(v, s, ty, buf);
    }
  }

  // One value behind its length: the length is patched in once the value is written.
  method NullableToSql(v: Datum, s: Shape, ty: Type, buf: BytesMut) returns (r: Result<bool, Error>)
    requires HasShape(v, s) && ToSqlAccepts(s, ty)
    modifies buf
    ensures old(buf.data) <= buf.data
    ensures r == NullOf(Slotted(Encode(v, s, ty)))
    ensures r.Ok? ==> buf.data == old(buf.data) + Slot(Encode(v, s, ty).value)
    decreases s, 2, 0
  {
    hide I32Bytes, Slot, Encode;
    var base := |buf.data|;
    buf.Put(I32Bytes(0));
    ghost var x := Encode(v, s, ty);
    var written := ToSql(v, s, ty, buf);
    if written.Err? {
      return Err(written.error);
    }
    var count := -1;
    if !written.value {
      count := |buf.data| - base - 4;
      if count > I32_MAX {
        return Err(TooLarge);
      }
    }
    SlotPatched(old(buf.data), x.value, count);
    ghost var data := if x.value.None? then [] else x.value.value;
    assert buf.data == old(buf.data) + I32Bytes(0) + data;
    buf.Patch(base, I32Bytes(count));
    return written;
  }

  function NullOf(r: Result<Value, Error>): Result<bool, Error> {
    match r case Err(e) => Err(e) case Ok(x) => Ok(x.None?)
  }

  // Patching the length in front of the bytes just written makes them a slot.
  lemma SlotPatched(before: seq<byte>, x: Value, count: i32)
    requires Fits(x) && count == if x.None? then -1 else |x.value|
    ensures var data := if x.None? then [] else x.value;
      Patched(before + I32Bytes(0) + data, |before|, I32Bytes(count)) == before + Slot(x)
  {
    hide I32Bytes;
    PatchedMiddle(before, I32Bytes(0), if x.None? then [] else x.value, I32Bytes(count));
    assert I32Bytes(-1) + [] == I32Bytes(-1);
  }

  method FieldToSql(v: Datum, s: Shape, ty: Type, k: nat, buf: BytesMut) returns (r: Result<bool, Error>)
    requires s.CompositeOf? && HasShape(v, s) && ToSqlAccepts(s, ty) && k < |ty.kind.fields|
    modifies buf
    ensures old(buf.data) <= buf.data
    ensures r.Err? ==> EncodeField(v, s, ty, k) == Err(r.error)
    ensures r.Ok? ==> EncodeField(v, s, ty, k).Ok? && buf.data == old(buf.data) + EncodeField(v, s, ty, k).value
    decreases s, 0, 0
  {
    hide I32Bytes, U32Bytes, Slot, Encode;
    var f := ty.kind.fields[k];
    var i := MemberIndex(s.members, f.name).value;
    hide MemberIndex;
    buf.Put(U32Bytes(f.type_.oid));
    r := NullableToSql(v.parts[i], s.members[i].shape, f.type_, buf);
  }

  lemma EncodeFieldsOne(v: Datum, s: Shape, ty: Type, k: nat, done: seq<byte>)
    requires s.CompositeOf? && HasShape(v, s) && ToSqlAccepts(s, ty) && k < |ty.kind.fields|
    ensures After(done, EncodeFields(v, s, ty, k))
         == match EncodeField(v, s, ty, k)
            case Err(e) => Err(e)
            case Ok(piece) => After(done + piece, EncodeFields(v, s, ty, k + 1))
  {
    assert ty.kind.Composite?;
    hide EncodeField, HasShape, ToSqlAccepts;
    if EncodeField(v, s, ty, k).Ok? {
      AfterBoth(done, EncodeField(v, s, ty, k).value, EncodeFields(v, s, ty, k + 1));
    }
  }

  lemma EncodeFieldsEnd(v: Datum, s: Shape, ty: Type, done: seq<byte>)
    requires s.CompositeOf? && HasShape(v, s) && ToSqlAccepts(s, ty)
    ensures After(done, EncodeFields(v, s, ty, |ty.kind.fields|)) == Ok(done)
  {
    assert done + [] == done;
  }

  method CompositeToSql(v: Datum, s: Shape, ty: Type, buf: BytesMut) returns (r: Result<bool, Error>)
    requires s.CompositeOf? && HasShape(v, s) && ToSqlAccepts(s, ty)
    modifies buf
    ensures old(buf.data) <= buf.data
    ensures r == (match EncodeFields(v, s, ty, 0) case Err(e) => Err(e) case Ok(_) => Ok(false))
    ensures r.Ok? ==>
      buf.data == old(buf.data) + (I32Bytes(WrapI32(|ty.kind.fields|)) + EncodeFields(v, s, ty, 0).value)
    decreases s, 0, 2
  {
    assert ty.kind.Composite?;
    hide I32Bytes, WrapI32, EncodeFields, HasShape, ToSqlAccepts;
    buf.Put(I32Bytes(WrapI32(|ty.kind.fields|)));
    r := FieldsToSql(v, s, ty, buf);
    PrefixTrans(old(buf.data), I32Bytes(WrapI32(|ty.kind.fields|)), buf.data);
    if r.Ok? {
      Assoc(old(buf.data), I32Bytes(WrapI32(|ty.kind.fields|)), EncodeFields(v, s, ty, 0).value);
    }
  }

  // The fields in the server's order, each found in the struct by its name.
  method FieldsToSql(v: Datum, s: Shape, ty: Type, buf: BytesMut) returns (r: Result<bool, Error>)
    requires s.CompositeOf? && HasShape(v, s) && ToSqlAccepts(s, ty)
    modifies buf
    ensures old(buf.data) <= buf.data
    ensures r == (match EncodeFields(v, s, ty, 0) case Err(e) => Err(e) case Ok(_) => Ok(false))
    ensures r.Ok? ==> buf.data == old(buf.data) + EncodeFields(v, s, ty, 0).value
    decreases s, 0, 1
  {
    assert ty.kind.Composite?;
    hide EncodeField, EncodeFields, HasShape, ToSqlAccepts, After, Cat;
    ghost var done: seq<byte> := [];
    AfterNothing(EncodeFields(v, s, ty, 0));
    CatNothing(buf.data);
    var fields := ty.kind.fields;
    for k := 0 to |fields|
      invariant buf.data == Cat(old(buf.data), done)
      invariant EncodeFields(v, s, ty, 0) == After(done, EncodeFields(v, s, ty, k))
    {
      EncodeFieldsOne(v, s, ty, k, done);
      var written := FieldToSql(v, s, ty, k, buf);
      if written.Err? {
        CatIs(old(buf.data), done);
        return Err(written.error);
      }
      CatMore(old(buf.data), done, EncodeField(v, s, ty, k).value);
      done := done + EncodeField(v, s, ty, k).value;
    }
    EncodeFieldsEnd(v, s, ty, done);
    CatIs(old(buf.data), done);
    return Ok(false);
  }

  method VecToSql(v: Datum, s: Shape, ty: Type, buf: BytesMut) returns (r: Result<bool, Error>)
    requires s.VecOf? && HasShape(v, s) && ToSqlAccepts(s, ty)
    modifies buf
    ensures old(buf.data) <= buf.data
    ensures r == NullOf(Encode(v, s, ty))
    ensures r.Ok? ==> Encode(v, s, ty).value.Some? && buf.data == old(buf.data) + Encode(v, s, ty).value.value
    decreases s, 0, 0
  {
    if |v.items| > I32_MAX {
      return Err(TooLarge);
    }
    var member := ty.kind.member;
    assert AllShaped(v.items, s.element) && ToSqlAccepts(s.element, member);
    VecEncoded(v, s, ty);
    hide *;
    var dims := [Dimension(|v.items|, LowerBound(ty))];
    var flagsIdx := |buf.data| + 4;
    var header := HeaderToSql(dims, member.oid, buf);
    var items := ItemsToSql(v.items, s.element, member, buf);
    if items.Err? {
      return Err(items.error);
    }
    ghost var vs := EncodeItems(v.items, s.element, member).value;
    var flag := I32Bytes(if items.value then 1 else 0);
    HeaderPatched(old(buf.data), I32Bytes(0), U32Bytes(member.oid), DimensionsWire(dims), AllSlots(vs),
      I32Bytes(1), flag);
    buf.Patch(flagsIdx, flag);
    return Ok(false);
  }

  lemma VecEncoded(v: Datum, s: Shape, ty: Type)
    requires s.VecOf? && HasShape(v, s) && ToSqlAccepts(s, ty) && |v.items| <= I32_MAX
    ensures var items := EncodeItems(v.items, s.element, ty.kind.member);
      NullOf(Encode(v, s, ty)) == (match items case Err(e) => Err(e) case Ok(_) => Ok(false))
      && (items.Ok? ==> Encode(v, s, ty).Ok? && Encode(v, s, ty).value == Some(
            I32Bytes(1) + I32Bytes(if None in items.value then 1 else 0) + U32Bytes(ty.kind.member.oid) +
            DimensionsWire([Dimension(|v.items|, LowerBound(ty))]) + AllSlots(items.value)))
  {
    hide I32Bytes, U32Bytes, DimensionsWire, AllSlots, EncodeItems;
  }

  // The elements, one slot after the other; tells whether any of them is NULL.
  method ItemsToSql(items: seq<Datum>, element: Shape, member: Type, buf: BytesMut) returns (r: Result<bool, Error>)
    requires AllShaped(items, element) && ToSqlAccepts(element, member)
    modifies buf
    ensures old(buf.data) <= buf.data
    ensures r == (match EncodeItems(items, element, member) case Err(e) => Err(e) case Ok(vs) => Ok(None in vs))
    ensures r.Ok? ==> buf.data == old(buf.data) + AllSlots(EncodeItems(items, element, member).value)
    decreases element, 3, 0
  {
    hide Slot, AllSlots, Encode, HasShape, ToSqlAccepts, Cat;
    ghost var done: seq<Value> := [];
    var hasNulls := false;
    NoSlots();
    CatNothing(buf.data);
    AfterNothing(EncodeItems(items, element, member));
    assert items[0..] == items;
    for i := 0 to |items|
      invariant AllFit(done) && buf.data == Cat(old(buf.data), AllSlots(done)) && hasNulls == (None in done)
      invariant EncodeItems(items, element, member) == After(done, EncodeItems(items[i..], element, member))
    {
      CatIs(old(buf.data), AllSlots(done));
      ghost var x := Encode(items[i], element, member);
      assert items[i..][0] == items[i] && items[i..][1..] == items[i + 1..];
      var written := NullableToSql(items[i], element, member, buf);
      if written.Err? {
        return Err(written.error);
      }
      hasNulls := hasNulls || written.value;
      AllSlotsSnoc(done, x.value);
      CatMore(old(buf.data), AllSlots(done), Slot(x.value));
      AfterBoth(done, [x.value], EncodeItems(items[i + 1..], element, member));
      done := done + [x.value];
    }
    AfterAll(done, EncodeItems(items[|items|..], element, member));
    CatIs(old(buf.data), AllSlots(done));
    return Ok(hasNulls);
  }

  // ---- The decoder, with its cursor and temporaries ----

  method FromSql(s: Shape, ty: Type, raw: Value) returns (r: Result<Datum, Error>)
    ensures r == Decode(s, ty, raw)
    decreases s, 1, 0
  {
    hide I32Of, ReadI32, ParseArray, DecodeFields, DecodeItems;
    if raw.None? {
      return if s.Nullable? then Ok(Absent) else Err(WasNull);
    }
    var b := raw.value;
    match s {
      case Int4 =>
        return if |b| == 4 then Ok(Number(I32Of(b))) else Err(Invalid);
      case Text =>
        return Ok(Data(b));
      case Bytea =>
        return Ok(Data(b));
      case Nullable(inner) =>
        var x := FromSql(inner, ty, raw);
        return Mapped(x, v => Present(v));
      case EnumOf(_, variants, _) =>
        var i := VariantIndex(variants, b);
        return if i.None? then Err(Invalid) else Ok(Variant(i.value));
      case DomainOf(_, wrapped) =>
        var x := FromSql(wrapped, if ty.kind.Domain? then ty.kind.base else ty, raw);
        return Mapped(x, v => Wrapped(v));
      case CompositeOf(_, _) =>
        r := CompositeFromSql(s, ty, b);
      case VecOf(_) =>
        r := VecFromSql(s, ty, b);
    }
  }

  method CompositeFromSql(s: Shape, ty: Type, raw: seq<byte>) returns (r: Result<Datum, Error>)
    requires s.CompositeOf?
    ensures r == Decode(s, ty, Some(raw))
    decreases s, 0, 0
  {
    hide I32Of, MemberIndex;
    if !ty.kind.Composite? {
      return Err(Panic);
    }
    var fields := ty.kind.fields;
    var buf := raw;
    if |buf| < 4 {
      return Err(Invalid);
    }
    var count := I32Of(buf[..4]);
    buf := buf[4..];
    if count != |fields| {
      return Err(Invalid);
    }
    var temps: seq<Option<Datum>> := seq(|s.members|, _ => None);
    ghost var whole := DecodeFields(s, fields, 0, buf, temps);
    for k := 0 to |fields|
      invariant |temps| == |s.members| && DecodeFields(s, fields, k, buf, temps) == whole
    {
      if |buf| < 4 {
        return Err(Invalid);
      }
      var oid := U32FromI32(I32Of(buf[..4]));
      buf := buf[4..];
      if oid != fields[k].type_.oid {
        return Err(Invalid);
      }
      var i := MemberIndex(s.members, fields[k].name);
      if i.None? {
        return Err(Panic);
      }
      var slot := ReadSlot(buf);
      if slot.None? {
        return Err(Invalid);
      }
      buf := slot.value.1;
      hide ReadSlot;
      var v := FromSql(s.members[i.value].shape, fields[k].type_, slot.value.0);
      if v.Err? {
        return Err(v.error);
      }
      temps := temps[i.value := Some(v.value)];
    }
    return if AllSet(temps) then Ok(Record(Unwrapped(temps))) else Err(Panic);
  }

  method VecFromSql(s: Shape, ty: Type, raw: seq<byte>) returns (r: Result<Datum, Error>)
    requires s.VecOf?
    ensures r == Decode(s, ty, Some(raw))
    decreases s, 0, 0
  {
    hide ParseArray, ReadSlot, DimensionsOf;
    if !ty.kind.Array? {
      return Err(Panic);
    }
    var a := ArrayFromSql(raw);
    if a.Err? || a.value.dimensions > 1 {
      return Err(Invalid);
    }
    ViewInRange(raw);
    var element, member := s.element, ty.kind.member;
    var buf := a.value.buf[a.value.dimensions * 8..];
    var items: seq<Datum> := [];
    ghost var whole := DecodeItems(element, member, buf, a.value.elements);
    AfterNothing(whole);
    var remaining := a.value.elements;
    while remaining > 0
      invariant whole == After(items, DecodeItems(element, member, buf, remaining))
      decreases remaining
    {
      var slot := ReadSlot(buf);
      if slot.None? {
        return Err(Invalid);
      }
      var v := FromSql(element, member, slot.value.0);
      if v.Err? {
        return Err(v.error);
      }
      buf := slot.value.1;
      remaining := remaining - 1;
      AfterBoth(items, [v.value], DecodeItems(element, member, buf, remaining));
      items := items + [v.value];
    }
    if buf != [] {
      return Err(Invalid);
    }
    assert items + [] == items;
    return Ok(Items(items));
  }

  // ---- Every temporary is filled ----

  ghost predicate DistinctFields(fields: seq<Field>) {
    forall i, j :: 0 <= i < j < |fields| ==> fields[i].name != fields[j].name
  }

  predicate AllKnown(members: seq<Member>, fields: seq<Field>) {
    forall k :: 0 <= k < |fields| ==> MemberIndex(members, fields[k].name).Some?
  }

  // The member each field fills.
  function Targets(members: seq<Member>, fields: seq<Field>): (r: seq<nat>)
    requires AllKnown(members, fields)
    ensures |r| == |fields|
    ensures forall k :: 0 <= k < |r| ==> r[k] < |members| && MemberIndex(members, fields[k].name) == Some(r[k])
  {
    seq(|fields|, k requires 0 <= k < |fields| && MemberIndex(members, fields[k].name).Some? =>
      MemberIndex(members, fields[k].name).value)
  }

  lemma TargetsDistinct(members: seq<Member>, fields: seq<Field>)
    requires AllKnown(members, fields)
    ensures NoRepeats(Targets(members, fields)) <==> DistinctFields(fields)
  {
    var t := Targets(members, fields);
    assert forall k :: 0 <= k < |fields| ==> members[t[k]].name == fields[k].name;
    hide MemberIndex, Targets;
    if !NoRepeats(t) {
      var i, j :| 0 <= i < j < |t| && t[i] == t[j];
      assert fields[i].name == fields[j].name;
    }
  }

  lemma {:induction false} FieldsFill(s: Shape, fields: seq<Field>, k: nat, b: seq<byte>, temps: seq<Option<Datum>>)
    requires s.CompositeOf? && k <= |fields| && |temps| == |s.members| && AllKnown(s.members, fields)
    requires DecodeFields(s, fields, k, b, temps).Ok?
    ensures forall i :: 0 <= i < |temps| ==>
      var after := DecodeFields(s, fields, k, b, temps).value[i];
      (if i in Targets(s.members, fields)[k..] then after.Some? else after == temps[i])
    decreases |fields| - k
  {
    hide Targets, ReadI32, ReadSlot, MemberIndex, Decode;
    if k < |fields| {
      var t := Targets(s.members, fields);
      assert t[k..] == [t[k]] + t[k + 1..];
      var (x, rest) := ReadSlot(ReadI32(b).value.1).value;
      var v := Decode(s.members[t[k]].shape, fields[k].type_, x).value;
      FieldsFill(s, fields, k + 1, rest, temps[t[k] := Some(v)]);
    }
  }

  /**
   Once the fields of a composite have all decoded, the final unwraps succeed exactly when
   the server's field names are distinct.
   */
  lemma UnwrapNeverFails(s: Shape, ty: Type, b: seq<byte>)
    requires s.CompositeOf? && FromSqlAccepts(s, ty)
    requires DecodeFields(s, ty.kind.fields, 0, b, seq(|s.members|, _ => None)).Ok?
    ensures AllSet(DecodeFields(s, ty.kind.fields, 0, b, seq(|s.members|, _ => None)).value) <==>
      DistinctFields(ty.kind.fields)
  {
    var fields := ty.kind.fields;
    assert AllKnown(s.members, fields);
    hide DecodeFields, MemberIndex, Targets, FromSqlAccepts;
    var t := Targets(s.members, fields);
    assert t[0..] == t;
    TargetsDistinct(s.members, fields);
    Pigeonhole(t);
    FieldsFill(s, fields, 0, b, seq(|s.members|, _ => None));
  }

  // ---- Decoding never panics ----

  // What decoding relies on: each part of the type has the kind that the shape unpacks.
  predicate Suits(s: Shape, ty: Type)
    decreases s
  {
    match s
    case Nullable(inner) => Suits(inner, ty)
    case DomainOf(_, wrapped) => Suits(wrapped, if ty.kind.Domain? then ty.kind.base else ty)
    case CompositeOf(_, members) =>
      ty.kind.Composite? && |ty.kind.fields| == |members| &&
      forall k :: 0 <= k < |ty.kind.fields| ==>
        var i := MemberIndex(members, ty.kind.fields[k].name);
        i.Some? && Suits(members[i.value].shape, ty.kind.fields[k].type_)
    case VecOf(element) => ty.kind.Array? && Suits(element, ty.kind.member)
    case _ => true
  }

  // A domain can be unpacked once more than was accepted: what is left suits as well.
  lemma {:induction false} SuitsUnpacked(s: Shape, ty: Type)
    requires Suits(s, ty) && ty.kind.Domain?
    ensures Suits(s, ty.kind.base)
    decreases s
  {
    match s {
      case Nullable(inner) => SuitsUnpacked(inner, ty);
      case DomainOf(_, wrapped) =>
        if ty.kind.base.kind.Domain? {
          SuitsUnpacked(wrapped, ty.kind.base);
        }
      case _ =>
    }
  }

  lemma {:induction false} AcceptedSuits(s: Shape, ty: Type)
    requires FromSqlAccepts(s, ty)
    ensures Suits(s, ty)
    decreases s
  {
    match s {
      case Nullable(inner) => AcceptedSuits(inner, ty);
      case DomainOf(_, wrapped) =>
        if FromSqlAccepts(wrapped, ty) {
          AcceptedSuits(wrapped, ty);
          if ty.kind.Domain? {
            SuitsUnpacked(wrapped, ty);
          }
        } else {
          ReadsWhatItWrites(wrapped, ty.kind.base);
          AcceptedSuits(wrapped, ty.kind.base);
        }
      case CompositeOf(_, members) =>
        forall k | 0 <= k < |ty.kind.fields|
          ensures Suits(members[MemberIndex(members, ty.kind.fields[k].name).value].shape, ty.kind.fields[k].type_)
        {
          AcceptedSuits(members[MemberIndex(members, ty.kind.fields[k].name).value].shape, ty.kind.fields[k].type_);
        }
      case VecOf(element) => AcceptedSuits(element, ty.kind.member);
      case _ =>
    }
  }

  /** No composite inside the type names two fields alike. */
  ghost predicate DistinctType(ty: Type)
    decreases ty
  {
    match ty.kind
    case Domain(base) => DistinctType(base)
    case Array(member) => DistinctType(member)
    case Composite(fields) =>
      |fields| <= I32_MAX && DistinctFields(fields) && forall k :: 0 <= k < |fields| ==> DistinctType(fields[k].type_)
    case _ => true
  }

  lemma {:induction false} SuitedNeverPanics(s: Shape, ty: Type, raw: Value)
    requires Suits(s, ty) && DistinctType(ty)
    ensures Decode(s, ty, raw) != Err(Panic)
    decreases s, 1, 0
  {
    hide I32Of, ReadI32, ParseArray, DecodeFields, DecodeItems;
    match raw {
      case None =>
      case Some(b) =>
        match s {
          case Nullable(inner) => SuitedNeverPanics(inner, ty, raw);
          case DomainOf(_, wrapped) => SuitedNeverPanics(wrapped, if ty.kind.Domain? then ty.kind.base else ty, raw);
          case CompositeOf(_, members) => CompositeNeverPanics(s, ty, b);
          case VecOf(element) =>
            var a := ParseArray(b);
            if a.Ok? && a.value.dimensions <= 1 {
              ViewInRange(b);
              ItemsNeverPanic(element, ty.kind.member, a.value.buf[a.value.dimensions * 8..], a.value.elements);
            }
          case _ =>
        }
    }
  }

  lemma CompositeNeverPanics(s: Shape, ty: Type, b: seq<byte>)
    requires s.CompositeOf? && Suits(s, ty) && DistinctType(ty)
    ensures Decode(s, ty, Some(b)) != Err(Panic)
    decreases s, 0, |ty.kind.fields| + 1
  {
    var fields := ty.kind.fields;
    assert AllKnown(s.members, fields);
    assert DistinctFields(fields);
    hide I32Of, DecodeFields, MemberIndex, Targets, Suits, DistinctFields;
    if |b| >= 4 {
      var temps := seq(|s.members|, _ => None);
      FieldsNeverPanic(s, ty, 0, b[4..], temps);
      if DecodeFields(s, fields, 0, b[4..], temps).Ok? {
        var t := Targets(s.members, fields);
        assert t[0..] == t;
        TargetsDistinct(s.members, fields);
        Pigeonhole(t);
        FieldsFill(s, fields, 0, b[4..], temps);
      }
    }
  }

  lemma FieldsNeverPanic(s: Shape, ty: Type, k: nat, b: seq<byte>, temps: seq<Option<Datum>>)
    requires s.CompositeOf? && Suits(s, ty) && DistinctType(ty)
    requires k <= |ty.kind.fields| && |temps| == |s.members|
    ensures DecodeFields(s, ty.kind.fields, k, b, temps) != Err(Panic)
    decreases s, 0, |ty.kind.fields| - k
  {
    var fields := ty.kind.fields;
    if k < |fields| {
      var i := MemberIndex(s.members, fields[k].name).value;
      assert Suits(s.members[i].shape, fields[k].type_) && DistinctType(fields[k].type_);
      hide I32Of, ReadI32, ReadSlot, Decode, MemberIndex, DistinctType;
      if |b| >= 4 && ReadSlot(ReadI32(b).value.1).Some? {
        var (x, rest) := ReadSlot(ReadI32(b).value.1).value;
        var v := Decode(s.members[i].shape, fields[k].type_, x);
        SuitedNeverPanics(s.members[i].shape, fields[k].type_, x);
        if v.Ok? {
          FieldsNeverPanic(s, ty, k + 1, rest, temps[i := Some(v.value)]);
        }
      }
    }
  }

  lemma ItemsNeverPanic(element: Shape, member: Type, b: seq<byte>, remaining: nat)
    requires Suits(element, member) && DistinctType(member)
    ensures DecodeItems(element, member, b, remaining) != Err(Panic)
    decreases element, 2, remaining
  {
    hide ReadSlot, Decode, Suits, DistinctType;
    if remaining > 0 && ReadSlot(b).Some? {
      var (x, rest) := ReadSlot(b).value;
      SuitedNeverPanics(element, member, x);
      ItemsNeverPanic(element, member, rest, remaining - 1);
    }
  }

  /** Whatever the server sends, decoding under an accepted type gives a value or an error. */
  lemma NeverPanics(s: Shape, ty: Type, raw: Value)
    requires FromSqlAccepts(s, ty) && DistinctType(ty)
    ensures Decode(s, ty, raw) != Err(Panic)
  {
    AcceptedSuits(s, ty);
    SuitedNeverPanics(s, ty, raw);
  }

  // ---- What is decoded at all ----

  /** Do the bytes begin with fields of these types, from the `k`-th on, each behind its own OID? */
  predicate CarriesFields(fields: seq<Field>, k: nat, b: seq<byte>)
    requires k <= |fields|
    decreases |fields| - k
  {
    k == |fields| ||
    (|b| >= 8 && U32Of(b[..4]) == fields[k].type_.oid && ReadSlot(b[4..]).Some? &&
     CarriesFields(fields, k + 1, ReadSlot(b[4..]).value.1))
  }

  lemma {:induction false} FieldsCarried(s: Shape, fields: seq<Field>, k: nat, b: seq<byte>, temps: seq<Option<Datum>>)
    requires s.CompositeOf? && k <= |fields| && |temps| == |s.members| && DecodeFields(s, fields, k, b, temps).Ok?
    ensures CarriesFields(fields, k, b)
    decreases |fields| - k
  {
    hide Decode, ReadSlot, U32Of, MemberIndex;
    if k < |fields| {
      SameOid(b[..4]);
      var i := MemberIndex(s.members, fields[k].name).value;
      var (x, rest) := ReadSlot(b[4..]).value;
      SlotLength(b[4..]);
      var v := Decode(s.members[i].shape, fields[k].type_, x).value;
      FieldsCarried(s, fields, k + 1, rest, temps[i := Some(v)]);
    }
  }

  lemma SameOid(b: seq<byte>)
    requires |b| == 4
    ensures U32FromI32(I32Of(b)) == U32Of(b)
  {
    hide U32Of;
  }

  lemma SlotLength(b: seq<byte>)
    ensures ReadSlot(b).Some? ==> |b| >= 4
  {}

  /**
   Whatever decodes is of the type that was asked for: four bytes for an integer, one of the
   labels for an enum, and for a composite as many fields as its type has, each announced
   under the OID of its own type.
   */
  lemma DecodedIsTyped(s: Shape, ty: Type, b: seq<byte>)
    requires Decode(s, ty, Some(b)).Ok?
    ensures s.Int4? ==> |b| == 4
    ensures s.EnumOf? ==> b in s.variants
    ensures s.CompositeOf? ==>
      ty.kind.Composite? && |b| >= 4 && I32Of(b[..4]) == |ty.kind.fields| && CarriesFields(ty.kind.fields, 0, b[4..])
  {
    hide I32Of, CarriesFields, DecodeFields;
    if s.CompositeOf? {
      FieldsCarried(s, ty.kind.fields, 0, b[4..], seq(|s.members|, _ => None));
    }
  }

  lemma {:induction false} DecodedHasShape(s: Shape, ty: Type, raw: Value)
    requires Decode(s, ty, raw).Ok?
    ensures HasShape(Decode(s, ty, raw).value, s)
    decreases s, 1, 0
  {
    hide DecodeFields, DecodeItems, I32Of, ParseArray;
    match raw {
      case None =>
      case Some(b) =>
        match s {
          case Nullable(inner) => DecodedHasShape(inner, ty, raw);
          case DomainOf(_, wrapped) =>
            DecodedHasShape(wrapped, if ty.kind.Domain? then ty.kind.base else ty, raw);
          case CompositeOf(_, members) =>
            FieldsHaveShape(s, ty.kind.fields, 0, b[4..], seq(|members|, _ => None));
          case VecOf(element) =>
            ViewInRange(b);
            var a := ParseArray(b).value;
            ItemsHaveShape(element, ty.kind.member, a.buf[a.dimensions * 8..], a.elements);
          case _ =>
        }
    }
  }

  predicate TempsShaped(temps: seq<Option<Datum>>, members: seq<Member>) {
    && |temps| == |members|
    && forall i :: 0 <= i < |temps| && temps[i].Some? ==> HasShape(temps[i].value, members[i].shape)
  }

  lemma FieldsHaveShape(s: Shape, fields: seq<Field>, k: nat, b: seq<byte>, temps: seq<Option<Datum>>)
    requires s.CompositeOf? && k <= |fields| && TempsShaped(temps, s.members)
    requires DecodeFields(s, fields, k, b, temps).Ok?
    ensures TempsShaped(DecodeFields(s, fields, k, b, temps).value, s.members)
    decreases s, 0, |fields| - k
  {
    hide Decode, ReadSlot, ReadI32, HasShape;
    if k < |fields| {
      var rest := ReadI32(b).value.1;
      var i := MemberIndex(s.members, fields[k].name).value;
      var (x, rest') := ReadSlot(rest).value;
      DecodedHasShape(s.members[i].shape, fields[k].type_, x);
      var v := Decode(s.members[i].shape, fields[k].type_, x).value;
      FieldsHaveShape(s, fields, k + 1, rest', temps[i := Some(v)]);
    }
  }

  lemma ItemsHaveShape(element: Shape, member: Type, b: seq<byte>, remaining: nat)
    requires DecodeItems(element, member, b, remaining).Ok?
    ensures AllShaped(DecodeItems(element, member, b, remaining).value, element)
    decreases element, 2, remaining
  {
    hide Decode, ReadSlot, HasShape;
    if remaining > 0 {
      var (x, rest) := ReadSlot(b).value;
      DecodedHasShape(element, member, x);
      ItemsHaveShape(element, member, rest, remaining - 1);
    }
  }

  // ---- Round trip ----

  /** Values that travel as NULL. */
  predicate NullLike(v: Datum) {
    match v
    case Absent => true
    case Present(x) => NullLike(x)
    case Wrapped(x) => NullLike(x)
    case _ => false
  }

  /** Nowhere in the value does a `Some` or a domain wrap something that travels as NULL. */
  predicate NullFaithful(v: Datum) {
    match v
    case Present(x) => !NullLike(x) && NullFaithful(x)
    case Wrapped(x) => !NullLike(x) && NullFaithful(x)
    case Record(parts) => forall i :: 0 <= i < |parts| ==> NullFaithful(parts[i])
    case Items(items) => forall i :: 0 <= i < |items| ==> NullFaithful(items[i])
    case _ => true
  }

  /** No two variants of an enum share a name. */
  ghost predicate DistinctVariants(s: Shape)
    decreases s
  {
    match s
    case Nullable(inner) => DistinctVariants(inner)
    case EnumOf(_, variants, _) => NoRepeats(variants)
    case DomainOf(_, wrapped) => DistinctVariants(wrapped)
    case CompositeOf(_, members) => forall i :: 0 <= i < |members| ==> DistinctVariants(members[i].shape)
    case VecOf(element) => DistinctVariants(element)
    case _ => true
  }

  lemma {:induction false} NullIs(v: Datum, s: Shape, ty: Type)
    requires HasShape(v, s) && ToSqlAccepts(s, ty)
    ensures Encode(v, s, ty) == Ok(None) <==> NullLike(v)
    decreases s
  {
    hide EncodeFields, EncodeItems, ArrayWire;
    match s {
      case Nullable(inner) =>
        if v.Present? {
          NullIs(v.datum, inner, ty);
        }
      case DomainOf(_, wrapped) => NullIs(v.inside, wrapped, ty.kind.base);
      case _ =>
    }
  }

  lemma {:induction false} VariantBack(variants: seq<seq<byte>>, i: nat)
    requires NoRepeats(variants) && i < |variants|
    ensures VariantIndex(variants, variants[i]) == Some(i)
  {}

  // What the round trip needs of a shape and a type.
  ghost predicate Sound(s: Shape, ty: Type) {
    ToSqlAccepts(s, ty) && DistinctType(ty) && DistinctVariants(s)
  }

  /**
   A value that encodes is decoded as itself exactly when it is null-faithful: `Some` of
   nothing reads back as nothing, and a domain over NULL does not read back at all.
   */
  lemma {:induction false} RoundTrip(v: Datum, s: Shape, ty: Type)
    requires HasShape(v, s) && Sound(s, ty) && Encode(v, s, ty).Ok?
    ensures Decode(s, ty, Encode(v, s, ty).value) == Ok(v) <==> NullFaithful(v)
    decreases s, 1, 0
  {
    hide I32Of, I32Bytes, ReadI32, ParseArray, ArrayWire, EncodeFields, EncodeItems, DecodeFields, DecodeItems;
    match s {
      case Int4 => I32RoundTrip(v.n);
      case Nullable(inner) =>
        if v.Present? {
          NullIs(v.datum, inner, ty);
          RoundTrip(v.datum, inner, ty);
        }
      case EnumOf(_, variants, _) => VariantBack(variants, v.index);
      case DomainOf(_, wrapped) =>
        NullIs(v.inside, wrapped, ty.kind.base);
        RoundTrip(v.inside, wrapped, ty.kind.base);
      case CompositeOf(_, _) => CompositeRoundTrip(v, s, ty);
      case VecOf(element) => VecRoundTrip(v, s, ty);
      case _ =>
    }
  }

  /** `Some(None)` of a nullable nullable reads back as `None`, and a domain over NULL as an error. */
  lemma NullIsNotRestored()
    ensures var s := Nullable(Nullable(Int4));
      && HasShape(Present(Absent), s) && Sound(s, INT4) && Encode(Present(Absent), s, INT4) == Ok(None)
      && Decode(s, INT4, None) == Ok(Absent)
    ensures var s, ty := DomainOf("d", Nullable(Int4)), Type("d", 1, Kind.Domain(INT4), CATALOG);
      && HasShape(Wrapped(Absent), s) && Sound(s, ty) && Encode(Wrapped(Absent), s, ty) == Ok(None)
      && Decode(s, ty, None) == Err(WasNull)
  {
    assert Decode(Nullable(Nullable(Int4)), INT4, None) == Ok(Absent);
  }

  lemma VecRoundTrip(v: Datum, s: Shape, ty: Type)
    requires s.VecOf? && HasShape(v, s) && Sound(s, ty) && Encode(v, s, ty).Ok?
    ensures Decode(s, ty, Encode(v, s, ty).value) == Ok(v) <==> NullFaithful(v)
    decreases s, 0, 0
  {
    var element, member := s.element, ty.kind.member;
    assert Sound(element, member);
    assert NullFaithful(v) <==> AllFaithful(v.items);
    hide ParseArray, ArrayWire, EncodeItems, DecodeItems, DistinctType, DistinctVariants, AllSlots, AllFaithful;
    hide NullFaithful, Sound;
    var vs := EncodeItems(v.items, element, member).value;
    ItemsRoundTrip(v.items, element, member);
    OneDimension(Dimension(|v.items|, LowerBound(ty)), member.oid, vs);
  }

  /** A `Vec` travels as one dimension of its own length, also when it is empty, counted from where its type asks. */
  lemma VecIsOneDimensional(v: Datum, s: Shape, ty: Type)
    requires s.VecOf? && HasShape(v, s) && ToSqlAccepts(s, ty) && Encode(v, s, ty).Ok?
    ensures Encode(v, s, ty).value.Some? && ParseArray(Encode(v, s, ty).value.value).Ok?
    ensures var a := ParseArray(Encode(v, s, ty).value.value).value;
      && a.dimensions == 1 && a.elements == |v.items| && a.elementType == ty.kind.member.oid && |a.buf| >= 8
      && DimensionsOf(a.buf[..8]) == Ok([Dimension(|v.items|, if ty.oid in {22, 30} then 0 else 1)])
  {
    var vs := EncodeItems(v.items, s.element, ty.kind.member).value;
    var d := Dimension(|v.items|, LowerBound(ty));
    hide EncodeItems, ParseArray, ArrayWire, DimensionsOf, DimensionsWire, AllSlots, Collect;
    assert Countable([d][1..], d.len) && Product([d][1..], d.len) == d.len;
    ArrayBack([d], ty.kind.member.oid, vs);
    OneDimension(d, ty.kind.member.oid, vs);
  }

  // A one-dimensional array's header.
  lemma OneDimension(d: Dimension, oid: u32, vs: seq<Value>)
    requires AllFit(vs) && d.len == |vs|
    ensures var a := ParseArray(ArrayWire([d], oid, vs));
      a.Ok? && a.value.dimensions == 1 && a.value.elements == |vs| && a.value.buf[8..] == AllSlots(vs)
  {
    hide ParseArray, ArrayWire, DimensionsWire, AllSlots, ParseDimensions;
    HeaderBack([d], oid, vs);
    ParseDimensionsBack([d], 1, AllSlots(vs));
    assert Countable([d][1..], d.len) && Product([d][1..], d.len) == d.len;
    CutConcat(DimensionsWire([d]), AllSlots(vs), []);
    assert DimensionsWire([d]) + AllSlots(vs) + [] == DimensionsWire([d]) + AllSlots(vs);
    assert AllSlots(vs) + [] == AllSlots(vs);
  }

  lemma PrependedIs(first: Datum, others: Result<seq<Datum>, Error>, items: seq<Datum>)
    requires items != []
    ensures After([first], others) == Ok(items) <==> first == items[0] && others == Ok(items[1..])
  {
    assert items == [items[0]] + items[1..];
    if others.Ok? {
      assert ([first] + others.value)[1..] == others.value;
    }
  }

  ghost predicate AllFaithful(items: seq<Datum>) {
    forall i :: 0 <= i < |items| ==> NullFaithful(items[i])
  }

  lemma AllFaithfulCons(items: seq<Datum>)
    requires items != []
    ensures AllFaithful(items) <==> NullFaithful(items[0]) && AllFaithful(items[1..])
  {
    hide NullFaithful;
    assert items == [items[0]] + items[1..];
  }

  // Encoding one item more, and decoding it again.
  lemma EncodeItemsStep(items: seq<Datum>, element: Shape, member: Type)
    requires AllShaped(items, element) && ToSqlAccepts(element, member)
    requires items != [] && EncodeItems(items, element, member).Ok?
    ensures var x := Encode(items[0], element, member);
      && x.Ok? && Fits(x.value) && EncodeItems(items[1..], element, member).Ok?
      && EncodeItems(items, element, member).value == [x.value] + EncodeItems(items[1..], element, member).value
  {
    hide Encode, HasShape, ToSqlAccepts;
  }

  lemma DecodeItemsStep(element: Shape, member: Type, x: Value, rest: seq<byte>, remaining: nat)
    requires Fits(x) && remaining > 0
    ensures DecodeItems(element, member, Slot(x) + rest, remaining)
         == match Decode(element, member, x)
            case Err(e) => Err(e)
            case Ok(v) => After([v], DecodeItems(element, member, rest, remaining - 1))
  {
    hide Slot, ReadSlot, Decode, After;
    ReadSlotBack(x, rest);
  }

  lemma NoItems(element: Shape, member: Type)
    requires ToSqlAccepts(element, member)
    ensures EncodeItems([], element, member) == Ok([]) && DecodeItems(element, member, AllSlots([]), 0) == Ok([])
    ensures AllFaithful([])
  {}

  // The first item of a sound list, and the others.
  lemma ItemsSound(items: seq<Datum>, element: Shape, member: Type)
    requires items != [] && AllShaped(items, element) && Sound(element, member)
    ensures HasShape(items[0], element) && AllShaped(items[1..], element) && ToSqlAccepts(element, member)
  {
    hide HasShape, ToSqlAccepts;
    assert forall i :: 0 <= i < |items| - 1 ==> items[1..][i] == items[i + 1];
  }

  lemma ItemsRoundTrip(items: seq<Datum>, element: Shape, member: Type)
    requires AllShaped(items, element) && Sound(element, member) && ToSqlAccepts(element, member)
    requires EncodeItems(items, element, member).Ok?
    ensures var vs := EncodeItems(items, element, member).value;
      DecodeItems(element, member, AllSlots(vs), |items|) == Ok(items) <==> AllFaithful(items)
    decreases element, 2, |items|
  {
    hide *;
    if items == [] {
      NoItems(element, member);
    } else {
      ItemsSound(items, element, member);
      EncodeItemsStep(items, element, member);
      var x, rest := Encode(items[0], element, member).value, EncodeItems(items[1..], element, member).value;
      AllSlotsCons(x, rest);
      DecodeItemsStep(element, member, x, AllSlots(rest), |items|);
      RoundTrip(items[0], element, member);
      ItemsRoundTrip(items[1..], element, member);
      AllFaithfulCons(items);
      var first := Decode(element, member, x);
      if first.Ok? {
        PrependedIs(first.value, DecodeItems(element, member, AllSlots(rest), |items| - 1), items);
      }
    }
  }

  ghost predicate FaithfulFrom(parts: seq<Datum>, t: seq<nat>, k: nat)
    requires k <= |t| && forall j :: 0 <= j < |t| ==> t[j] < |parts|
  {
    forall j :: k <= j < |t| ==> NullFaithful(parts[t[j]])
  }

  ghost predicate RestoredFrom(parts: seq<Datum>, temps: Result<seq<Option<Datum>>, Error>, t: seq<nat>, k: nat)
    requires k <= |t| && forall j :: 0 <= j < |t| ==> t[j] < |parts|
  {
    temps.Ok? && |temps.value| == |parts| && forall j :: k <= j < |t| ==> temps.value[t[j]] == Some(parts[t[j]])
  }

  lemma FieldRead(oid: u32, x: Value, rest: seq<byte>)
    requires Fits(x)
    ensures var b := U32Bytes(oid) + Slot(x) + rest;
      ReadI32(b) == Some((I32FromU32(oid), Slot(x) + rest)) && U32FromI32(I32FromU32(oid)) == oid
    ensures ReadSlot(Slot(x) + rest) == Some((x, rest))
  {
    hide U32Bytes, I32Bytes, Slot, ReadI32, ReadSlot;
    OidBytes(oid);
    assert U32Bytes(oid) + Slot(x) + rest == U32Bytes(oid) + (Slot(x) + rest);
    ReadI32Back(I32FromU32(oid), Slot(x) + rest);
    ReadSlotBack(x, rest);
  }

  // Encoding one field more, and decoding it again.
  lemma EncodeFieldsStep(v: Datum, s: Shape, ty: Type, k: nat)
    requires s.CompositeOf? && HasShape(v, s) && ToSqlAccepts(s, ty) && AllKnown(s.members, ty.kind.fields)
    requires k < |ty.kind.fields| && EncodeFields(v, s, ty, k).Ok?
    ensures var f, i := ty.kind.fields[k], Targets(s.members, ty.kind.fields)[k];
      var x := Encode(v.parts[i], s.members[i].shape, f.type_);
      && x.Ok? && Fits(x.value) && EncodeFields(v, s, ty, k + 1).Ok?
      && EncodeFields(v, s, ty, k).value == U32Bytes(f.type_.oid) + Slot(x.value) + EncodeFields(v, s, ty, k + 1).value
  {
    hide Encode, Targets, U32Bytes, Slot;
    assert MemberIndex(s.members, ty.kind.fields[k].name) == Some(Targets(s.members, ty.kind.fields)[k]);
    hide MemberIndex;
  }

  lemma DecodeFieldsStep(s: Shape, fields: seq<Field>, k: nat, x: Value, rest: seq<byte>, temps: seq<Option<Datum>>)
    requires s.CompositeOf? && AllKnown(s.members, fields) && k < |fields| && |temps| == |s.members| && Fits(x)
    ensures var i := Targets(s.members, fields)[k];
      DecodeFields(s, fields, k, U32Bytes(fields[k].type_.oid) + Slot(x) + rest, temps)
      == (match Decode(s.members[i].shape, fields[k].type_, x)
          case Err(e) => Err(e)
          case Ok(v) => DecodeFields(s, fields, k + 1, rest, temps[i := Some(v)]))
  {
    hide U32Bytes, Slot, ReadI32, ReadSlot, Decode, MemberIndex, Targets;
    FieldRead(fields[k].type_.oid, x, rest);
  }

  lemma FaithfulStep(parts: seq<Datum>, t: seq<nat>, k: nat)
    requires k < |t| && forall j :: 0 <= j < |t| ==> t[j] < |parts|
    ensures FaithfulFrom(parts, t, k) <==> NullFaithful(parts[t[k]]) && FaithfulFrom(parts, t, k + 1)
  {
    hide NullFaithful;
  }

  lemma NoFieldsLeft(parts: seq<Datum>, r: Result<seq<Option<Datum>>, Error>, t: seq<nat>)
    requires forall j :: 0 <= j < |t| ==> t[j] < |parts|
    requires r.Ok? && |r.value| == |parts|
    ensures FaithfulFrom(parts, t, |t|) && RestoredFrom(parts, r, t, |t|)
  {}

  // The value and type of one field, as parts of a sound composite.
  lemma FieldSound(v: Datum, s: Shape, ty: Type, k: nat)
    requires s.CompositeOf? && HasShape(v, s) && Sound(s, ty) && AllKnown(s.members, ty.kind.fields)
    requires k < |ty.kind.fields|
    ensures var i := Targets(s.members, ty.kind.fields)[k];
      && HasShape(v.parts[i], s.members[i].shape) && Sound(s.members[i].shape, ty.kind.fields[k].type_)
      && s.members[i].shape < s
    ensures NoRepeats(Targets(s.members, ty.kind.fields))
  {
    TargetsDistinct(s.members, ty.kind.fields);
    hide MemberIndex;
  }

  lemma FieldsRoundTrip(v: Datum, s: Shape, ty: Type, k: nat, temps: seq<Option<Datum>>)
    requires s.CompositeOf? && ty.kind.Composite? && v.Record? && |v.parts| == |s.members| == |temps|
    requires HasShape(v, s) && Sound(s, ty) && ToSqlAccepts(s, ty) && AllKnown(s.members, ty.kind.fields)
    requires k <= |ty.kind.fields| && EncodeFields(v, s, ty, k).Ok?
    ensures var t := Targets(s.members, ty.kind.fields);
      var r := DecodeFields(s, ty.kind.fields, k, EncodeFields(v, s, ty, k).value, temps);
      FaithfulFrom(v.parts, t, k) <==> RestoredFrom(v.parts, r, t, k)
    decreases s, 0, |ty.kind.fields| - k
  {
    hide *;
    var fields := ty.kind.fields;
    var t := Targets(s.members, fields);
    if k == |fields| {
      EncodeFieldsDone(v, s, ty, temps);
      NoFieldsLeft(v.parts, Ok(temps), t);
    } else {
      var i := t[k];
      var shape, type_ := s.members[i].shape, fields[k].type_;
      FieldSound(v, s, ty, k);
      SoundAccepts(shape, type_);
      EncodeFieldsStep(v, s, ty, k);
      var x := Encode(v.parts[i], shape, type_).value;
      var rest := EncodeFields(v, s, ty, k + 1).value;
      DecodeFieldsStep(s, fields, k, x, rest, temps);
      RoundTrip(v.parts[i], shape, type_);
      FaithfulStep(v.parts, t, k);
      var back := Decode(shape, type_, x);
      if back.Err? {
        FailedRestoresNothing(v.parts, back.error, t, k);
      } else {
        FieldsRoundTrip(v, s, ty, k + 1, temps[i := Some(back.value)]);
        FieldRestored(v, s, fields, k, rest, temps, back.value);
      }
    }
  }

  lemma SoundAccepts(s: Shape, ty: Type)
    requires Sound(s, ty)
    ensures ToSqlAccepts(s, ty)
  {}

  lemma EncodeFieldsDone(v: Datum, s: Shape, ty: Type, temps: seq<Option<Datum>>)
    requires s.CompositeOf? && HasShape(v, s) && ToSqlAccepts(s, ty) && |temps| == |s.members|
    ensures EncodeFields(v, s, ty, |ty.kind.fields|) == Ok([])
    ensures DecodeFields(s, ty.kind.fields, |ty.kind.fields|, [], temps) == Ok(temps)
  {}

  lemma FailedRestoresNothing(parts: seq<Datum>, e: Error, t: seq<nat>, k: nat)
    requires k <= |t| && forall j :: 0 <= j < |t| ==> t[j] < |parts|
    ensures !RestoredFrom(parts, Err(e), t, k)
  {}

  // One field more: its member is restored if it was read back, and no later field overwrites it.
  lemma FieldRestored(v: Datum, s: Shape, fields: seq<Field>, k: nat, rest: seq<byte>, temps: seq<Option<Datum>>,
      back: Datum)
    requires s.CompositeOf? && v.Record? && |v.parts| == |s.members| == |temps| && AllKnown(s.members, fields)
    requires k < |fields| && NoRepeats(Targets(s.members, fields))
    ensures var t := Targets(s.members, fields);
      var r := DecodeFields(s, fields, k + 1, rest, temps[t[k] := Some(back)]);
      RestoredFrom(v.parts, r, t, k) <==> back == v.parts[t[k]] && RestoredFrom(v.parts, r, t, k + 1)
  {
    hide DecodeFields, MemberIndex, Targets;
    var t := Targets(s.members, fields);
    var temps' := temps[t[k] := Some(back)];
    if DecodeFields(s, fields, k + 1, rest, temps').Ok? {
      FieldsFill(s, fields, k + 1, rest, temps');
      assert t[k] !in t[k + 1..];
    }
  }

  lemma CompositeRoundTrip(v: Datum, s: Shape, ty: Type)
    requires s.CompositeOf? && HasShape(v, s) && Sound(s, ty) && Encode(v, s, ty).Ok?
    ensures Decode(s, ty, Encode(v, s, ty).value) == Ok(v) <==> NullFaithful(v)
    decreases s, 0, |ty.kind.fields| + 1
  {
    var fields, n := ty.kind.fields, |s.members|;
    var temps := seq(n, _ => None);
    assert AllKnown(s.members, fields) && DistinctFields(fields) && |fields| == n <= I32_MAX;
    var t := Targets(s.members, fields);
    TargetsDistinct(s.members, fields);
    Pigeonhole(t);
    var b := EncodeFields(v, s, ty, 0).value;
    FieldsRoundTrip(v, s, ty, 0, temps);
    WrapFits(n);
    ReadI32Back(n, b);
    hide Targets, MemberIndex, I32Bytes, ReadI32, EncodeFields, DecodeFields, Sound, DistinctFields, HasShape, AllKnown;
    var r := DecodeFields(s, fields, 0, b, temps);
    AllTargets(t, v.parts, r);
  }

  // When every member is a target, restoring the targets restores the record.
  lemma AllTargets(t: seq<nat>, parts: seq<Datum>, r: Result<seq<Option<Datum>>, Error>)
    requires |t| == |parts| && (forall j :: 0 <= j < |t| ==> t[j] < |parts|)
    requires forall i :: 0 <= i < |t| ==> i in t
    requires r.Ok? ==> |r.value| == |parts|
    ensures FaithfulFrom(parts, t, 0) <==> NullFaithful(Record(parts))
    ensures RestoredFrom(parts, r, t, 0) <==> r.Ok? && AllSet(r.value) && Unwrapped(r.value) == parts
  {
    if RestoredFrom(parts, r, t, 0) {
      forall i | 0 <= i < |parts|
        ensures r.value[i] == Some(parts[i])
      {
        assert i in t;
        var j :| 0 <= j < |t| && t[j] == i;
      }
    }
    if FaithfulFrom(parts, t, 0) {
      forall i | 0 <= i < |parts|
        ensures NullFaithful(parts[i])
      {
        assert i in t;
        var j :| 0 <= j < |t| && t[j] == i;
      }
    }
  }
}
