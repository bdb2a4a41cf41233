/**
 Frontend messages: the serializers, which append to a shared buffer and patch lengths and
 counts at remembered offsets, and a reference parser that reads their output back.
 */
module Frontend {
  import opened Bytes
  import opened Wrappers
  import opened Sequences
  import opened Backend
  import Slots

  datatype FrontMsg =
    | Bind(portal: seq<byte>, statement: seq<byte>, formats: seq<i16>, values: seq<Slots.Value>,
        resultFormats: seq<i16>)
    | Close(closed: byte, closedName: seq<byte>)
    | Execute(exec: seq<byte>, maxRows: i32)
    | Parse(name: seq<byte>, query: seq<byte>, paramTypes: seq<u32>)
    | Describe(variant: byte, target: seq<byte>)
    | Query(sql: seq<byte>)
    | CopyBytes(data: seq<byte>)
    | CopyFinished
    | CopyFailed(reason: seq<byte>)
    | Flush
    | Sync
    | Terminate

  datatype EncodeError = EmbeddedNul | TooLarge

  // ---- Layout ----

  function Cstr(s: seq<byte>): seq<byte> {
    s + [0]
  }

  // The element kinds of the counted lists.
  datatype Item = FormatCode(code: i16) | TypeOid(oid: u32) | Value(value: Slots.Value)

  predicate ItemFits(it: Item) {
    it.Value? ==> Slots.Fits(it.value)
  }

  // A value too long for its length field is never written out whole.
  function ItemBytes(it: Item): seq<byte> {
    match it
    case FormatCode(code) => I16Bytes(code)
    case TypeOid(oid) => U32Bytes(oid)
    case Value(v) => if Slots.Fits(v) then Slots.Slot(v) else []
  }

  function ItemsBytes(items: seq<Item>): seq<byte> {
    if items == [] then [] else ItemBytes(items[0]) + ItemsBytes(items[1..])
  }

  function Codes(xs: seq<i16>): (items: seq<Item>)
    ensures |items| == |xs|
  {
    seq(|xs|, i requires 0 <= i < |xs| => FormatCode(xs[i]))
  }

  function Oids(xs: seq<u32>): (items: seq<Item>)
    ensures |items| == |xs|
  {
    seq(|xs|, i requires 0 <= i < |xs| => TypeOid(xs[i]))
  }

  function Values(vs: seq<Slots.Value>): (items: seq<Item>)
    ensures |items| == |vs|
  {
    seq(|vs|, i requires 0 <= i < |vs| => Value(vs[i]))
  }

  function Counted(items: seq<Item>): seq<byte> {
    U16Bytes(|items| % 0x1_0000) + ItemsBytes(items)
  }

  function Tag(m: FrontMsg): byte {
    match m
    case Bind(_, _, _, _, _) => 'B' as byte
    case Close(_, _) => 'C' as byte
    case Execute(_, _) => 'E' as byte
    case Parse(_, _, _) => 'P' as byte
    case Describe(_, _) => 'D' as byte
    case Query(_) => 'Q' as byte
    case CopyBytes(_) => 'd' as byte
    case CopyFinished => 'c' as byte
    case CopyFailed(_) => 'f' as byte
    case Flush => 'H' as byte
    case Sync => 'S' as byte
    case Terminate => 'X' as byte
  }

  function Body(m: FrontMsg): seq<byte> {
    match m
    case Bind(portal, statement, formats, values, results) =>
      Cstr(portal) + (Cstr(statement) + (Counted(Codes(formats)) + (Counted(Values(values)) + Counted(Codes(results)))))
    case Close(variant, name) => [variant] + Cstr(name)
    case Execute(portal, maxRows) => Cstr(portal) + I32Bytes(maxRows)
    case Parse(name, query, oids) => Cstr(name) + (Cstr(query) + Counted(Oids(oids)))
    case Describe(variant, name) => [variant] + Cstr(name)
    case Query(sql) => Cstr(sql)
    case CopyBytes(data) => data
    case CopyFailed(reason) => Cstr(reason)
    case _ => []
  }

  function FrameOf(m: FrontMsg): Frame {
    Frame(Tag(m), Body(m))
  }

  function Wire(m: FrontMsg): seq<byte> {
    Encode(FrameOf(m))
  }

  predicate ItemsFit(items: seq<Item>) {
    |items| <= U16_MAX && forall i :: 0 <= i < |items| ==> ItemFits(items[i])
  }

  /** What the wire format can carry: no NUL inside a string, counts and lengths in range. */
  predicate Encodable(m: FrontMsg) {
    && WellFormed(FrameOf(m))
    && match m
       case Bind(portal, statement, formats, values, results) =>
         0 !in portal && 0 !in statement
         && ItemsFit(Codes(formats)) && ItemsFit(Values(values)) && ItemsFit(Codes(results))
       case Close(_, name) => 0 !in name
       case Execute(portal, _) => 0 !in portal
       case Parse(name, query, oids) => 0 !in name && 0 !in query && ItemsFit(Oids(oids))
       case Describe(_, name) => 0 !in name
       case Query(sql) => 0 !in sql
       case CopyFailed(reason) => 0 !in reason
       case _ => true
  }

  // ---- Serializers ----

  method WriteCstr(s: seq<byte>, buf: BytesMut) returns (r: Result<(), EncodeError>)
    modifies buf
    ensures r == if 0 in s then Err(EmbeddedNul) else Ok(())
    ensures buf.data == old(buf.data) + if 0 in s then [] else Cstr(s)
  {
    if 0 in s {
      return Err(EmbeddedNul);
    }
    buf.Put(s);
    buf.Put([0]);
    assert buf.data == old(buf.data) + Cstr(s);
    return Ok(());
  }

  /** The first half of `write_body`: a hole for the length. */
  method BeginBody(tag: byte, buf: BytesMut) returns (base: nat)
    modifies buf
    ensures base == |old(buf.data)| + 1
    ensures buf.data == old(buf.data) + [tag] + [0, 0, 0, 0]
  {
    buf.Put([tag]);
    base := |buf.data|;
    buf.Put([0, 0, 0, 0]);
  }

  /** The second half: the length of what was appended since goes into the hole, whatever came before it. */
  method PatchLength(buf: BytesMut, base: nat, ghost before: seq<byte>, ghost body: seq<byte>)
    returns (r: Result<(), EncodeError>)
    requires base == |before| && buf.data == before + [0, 0, 0, 0] + body
    modifies buf
    ensures r == if |body| + 4 <= I32_MAX then Ok(()) else Err(TooLarge)
    ensures r.Ok? ==> buf.data == before + I32Bytes(WrapI32(|body| + 4)) + body
    ensures r.Err? ==> buf.data == old(buf.data)
  {
    hide I32Bytes, WrapI32;
    var size := |buf.data| - base;
    if size > I32_MAX {
      return Err(TooLarge);
    }
    WrapFits(size);
    PatchedMiddle(before, [0, 0, 0, 0], body, I32Bytes(size));
    buf.Patch(base, I32Bytes(size));
    return Ok(());
  }

  method FinishBody(base: nat, buf: BytesMut, ghost before: seq<byte>, ghost f: Frame)
    returns (r: Result<(), EncodeError>)
    requires base == |before| + 1 && buf.data == before + [f.tag] + [0, 0, 0, 0] + f.body
    modifies buf
    ensures r == if WellFormed(f) then Ok(()) else Err(TooLarge)
    ensures r.Ok? ==> buf.data == before + Encode(f)
    ensures r.Err? ==> buf.data == old(buf.data)
  {
    hide I32Bytes, WrapI32;
    r := PatchLength(buf, base, before + [f.tag], f.body);
    assert r.Ok? ==> buf.data == before + Encode(f);
  }

  method WriteItem(it: Item, buf: BytesMut) returns (r: Result<(), EncodeError>)
    modifies buf
    ensures r == if ItemFits(it) then Ok(()) else Err(TooLarge)
    ensures r.Ok? ==> buf.data == old(buf.data) + ItemBytes(it)
    ensures old(buf.data) <= buf.data
  {
    match it
    case FormatCode(code) => buf.Put(I16Bytes(code)); r := Ok(());
    case TypeOid(oid) => buf.Put(U32Bytes(oid)); r := Ok(());
    case Value(v) =>
      var fits := Slots.WriteNullable(v, buf);
      r := if fits then Ok(()) else Err(TooLarge);
  }

  /** A hole for the count, the items one after another, then the count into the hole. */
  method WriteCounted(items: seq<Item>, buf: BytesMut) returns (r: Result<(), EncodeError>)
    modifies buf
    ensures r == if ItemsFit(items) then Ok(()) else Err(TooLarge)
    ensures r.Ok? ==> buf.data == old(buf.data) + Counted(items)
    ensures old(buf.data) <= buf.data
  {
    hide ItemBytes, ItemFits, U16Bytes, Cat;
    ghost var before := buf.data;
    var base := |buf.data|;
    buf.Put([0, 0]);
    var count := 0;
    CatNothing(buf.data);
    while count < |items|
      invariant count <= |items|
      invariant buf.data == Cat(before + [0, 0], ItemsBytes(items[..count])) && before <= buf.data
      invariant forall i :: 0 <= i < count ==> ItemFits(items[i])
    {
      var w := WriteItem(items[count], buf);
      if w.Err? {
        return w;
      }
      CatMore(before + [0, 0], ItemsBytes(items[..count]), ItemBytes(items[count]));
      ItemsSnoc(items[..count], items[count]);
      assert items[..count] + [items[count]] == items[..count + 1];
      count := count + 1;
    }
    assert items[..count] == items;
    if count > U16_MAX {
      return Err(TooLarge);
    }
    CatIs(before + [0, 0], ItemsBytes(items));
    PatchedMiddle(before, [0, 0], ItemsBytes(items), U16Bytes(count));
    buf.Patch(base, U16Bytes(count));
    assert buf.data == before + Counted(items);
    return Ok(());
  }

  method WriteBind(portal: seq<byte>, statement: seq<byte>, formats: seq<i16>, values: seq<Slots.Value>,
        results: seq<i16>, buf: BytesMut)
    returns (r: Result<(), EncodeError>)
    modifies buf
    ensures var m := Bind(portal, statement, formats, values, results);
      (r.Ok? <==> Encodable(m)) && (r.Ok? ==> buf.data == old(buf.data) + Wire(m))
    ensures old(buf.data) <= buf.data
  {
    hide Encode, ItemsFit, Counted, Cstr;
    ghost var before, f := buf.data, FrameOf(Bind(portal, statement, formats, values, results));
    var base := BeginBody('B' as byte, buf);
    var w := WriteCstr(portal, buf);
    if w.Err? {
      return w;
    }
    w := WriteCstr(statement, buf);
    if w.Err? {
      return w;
    }
    w := WriteCounted(Codes(formats), buf);
    if w.Err? {
      return w;
    }
    w := WriteCounted(Values(values), buf);
    if w.Err? {
      return w;
    }
    w := WriteCounted(Codes(results), buf);
    if w.Err? {
      return w;
    }
    Regroup(before + [f.tag] + [0, 0, 0, 0], Cstr(portal), Cstr(statement), Counted(Codes(formats)),
      Counted(Values(values)), Counted(Codes(results)));
    assert buf.data == before + [f.tag] + [0, 0, 0, 0] + f.body;
    r := FinishBody(base, buf, before, f);
  }

  method WriteExecute(portal: seq<byte>, maxRows: i32, buf: BytesMut) returns (r: Result<(), EncodeError>)
    modifies buf
    ensures var m := Execute(portal, maxRows);
      (r.Ok? <==> Encodable(m)) && (r.Ok? ==> buf.data == old(buf.data) + Wire(m))
    ensures old(buf.data) <= buf.data
  {
    hide Encode, I32Bytes;
    ghost var before, f := buf.data, FrameOf(Execute(portal, maxRows));
    var base := BeginBody('E' as byte, buf);
    var w := WriteCstr(portal, buf);
    if w.Err? {
      return w;
    }
    buf.Put(I32Bytes(maxRows));
    assert buf.data == before + [f.tag] + [0, 0, 0, 0] + f.body;
    r := FinishBody(base, buf, before, f);
  }

  method WriteParse(name: seq<byte>, query: seq<byte>, paramTypes: seq<u32>, buf: BytesMut)
    returns (r: Result<(), EncodeError>)
    modifies buf
    ensures var m := Parse(name, query, paramTypes);
      (r.Ok? <==> Encodable(m)) && (r.Ok? ==> buf.data == old(buf.data) + Wire(m))
    ensures old(buf.data) <= buf.data
  {
    hide Encode, ItemsFit, Counted;
    ghost var before, f := buf.data, FrameOf(Parse(name, query, paramTypes));
    var base := BeginBody('P' as byte, buf);
    var w := WriteCstr(name, buf);
    if w.Err? {
      return w;
    }
    w := WriteCstr(query, buf);
    if w.Err? {
      return w;
    }
    w := WriteCounted(Oids(paramTypes), buf);
    if w.Err? {
      return w;
    }
    assert buf.data == before + [f.tag] + [0, 0, 0, 0] + f.body;
    r := FinishBody(base, buf, before, f);
  }

  method WriteClose(variant: byte, name: seq<byte>, buf: BytesMut) returns (r: Result<(), EncodeError>)
    modifies buf
    ensures var m := FrontMsg.Close(variant, name);
      (r.Ok? <==> Encodable(m)) && (r.Ok? ==> buf.data == old(buf.data) + Wire(m))
    ensures old(buf.data) <= buf.data
  {
    hide Encode;
    ghost var before, f := buf.data, FrameOf(FrontMsg.Close(variant, name));
    var base := BeginBody('C' as byte, buf);
    buf.Put([variant]);
    var w := WriteCstr(name, buf);
    if w.Err? {
      return w;
    }
    assert buf.data == before + [f.tag] + [0, 0, 0, 0] + f.body;
    r := FinishBody(base, buf, before, f);
  }

  method WriteDescribe(variant: byte, name: seq<byte>, buf: BytesMut) returns (r: Result<(), EncodeError>)
    modifies buf
    ensures var m := Describe(variant, name);
      (r.Ok? <==> Encodable(m)) && (r.Ok? ==> buf.data == old(buf.data) + Wire(m))
    ensures old(buf.data) <= buf.data
  {
    hide Encode;
    ghost var before, f := buf.data, FrameOf(Describe(variant, name));
    var base := BeginBody('D' as byte, buf);
    buf.Put([variant]);
    var w := WriteCstr(name, buf);
    if w.Err? {
      return w;
    }
    assert buf.data == before + [f.tag] + [0, 0, 0, 0] + f.body;
    r := FinishBody(base, buf, before, f);
  }

  method WriteQuery(sql: seq<byte>, buf: BytesMut) returns (r: Result<(), EncodeError>)
    modifies buf
    ensures (r.Ok? <==> Encodable(Query(sql))) && (r.Ok? ==> buf.data == old(buf.data) + Wire(Query(sql)))
    ensures old(buf.data) <= buf.data
  {
    hide Encode;
    ghost var before, f := buf.data, FrameOf(Query(sql));
    var base := BeginBody('Q' as byte, buf);
    var w := WriteCstr(sql, buf);
    if w.Err? {
      return w;
    }
    assert buf.data == before + [f.tag] + [0, 0, 0, 0] + f.body;
    r := FinishBody(base, buf, before, f);
  }

  method WriteCopyFail(reason: seq<byte>, buf: BytesMut) returns (r: Result<(), EncodeError>)
    modifies buf
    ensures (r.Ok? <==> Encodable(CopyFailed(reason)))
         && (r.Ok? ==> buf.data == old(buf.data) + Wire(CopyFailed(reason)))
    ensures old(buf.data) <= buf.data
  {
    hide Encode;
    ghost var before, f := buf.data, FrameOf(CopyFailed(reason));
    var base := BeginBody('f' as byte, buf);
    var w := WriteCstr(reason, buf);
    if w.Err? {
      return w;
    }
    assert buf.data == before + [f.tag] + [0, 0, 0, 0] + f.body;
    r := FinishBody(base, buf, before, f);
  }

  /** `copy_done`, `flush`, `sync` and `terminate`: a tag and an empty body. */
  method WriteEmpty(m: FrontMsg, buf: BytesMut)
    requires m.CopyFinished? || m.Flush? || m.Sync? || m.Terminate?
    modifies buf
    ensures buf.data == old(buf.data) + Wire(m)
  {
    hide Encode;
    ghost var before := buf.data;
    var base := BeginBody(Tag(m), buf);
    assert buf.data == before + [Tag(m)] + [0, 0, 0, 0] + [];
    var w := FinishBody(base, buf, before, FrameOf(m));
  }

  // ---- The reference parser ----

  /** Reads `n` items of the kind of `like`. */
  function TakeItems(like: Item, n: nat, b: seq<byte>): Option<(seq<Item>, seq<byte>)>
    decreases n
  {
    if n == 0 then Some(([], b))
    else match TakeItem(like, b)
      case None => None
      case Some((it, rest)) =>
        match TakeItems(like, n - 1, rest)
        case None => None
        case Some((more, rest')) => Some(([it] + more, rest'))
  }

  function TakeItem(like: Item, b: seq<byte>): Option<(Item, seq<byte>)> {
    match like
    case FormatCode(_) => if |b| < 2 then None else Some((FormatCode(I16Of(b[..2])), b[2..]))
    case TypeOid(_) => if |b| < 4 then None else Some((TypeOid(U32Of(b[..4])), b[4..]))
    case Value(_) =>
      if |b| < 4 then None
      else
        var n := I32Of(b[..4]);
        if n == -1 then Some((Value(None), b[4..]))
        else if n < 0 || |b| - 4 < n then None
        else Some((Value(Some(b[4..4 + n])), b[4 + n..]))
  }

  function TakeCounted(like: Item, b: seq<byte>): Option<(seq<Item>, seq<byte>)> {
    if |b| < 2 then None else TakeItems(like, U16Of(b[..2]), b[2..])
  }

  predicate AllLike(like: Item, items: seq<Item>) {
    forall i :: 0 <= i < |items| ==>
      (like.FormatCode? <==> items[i].FormatCode?) && (like.TypeOid? <==> items[i].TypeOid?)
  }

  lemma ItemBack(like: Item, it: Item, tail: seq<byte>)
    requires AllLike(like, [it]) && ItemsFit([it])
    ensures TakeItem(like, ItemBytes(it) + tail) == Some((it, tail))
  {
    var b := ItemBytes(it) + tail;
    assert AllLike(like, [it]) ==> (like.FormatCode? <==> [it][0].FormatCode?) && (like.TypeOid? <==> [it][0].TypeOid?);
    match it
    case FormatCode(code) =>
      assert b[..2] == I16Bytes(code) && b[2..] == tail;
      I16RoundTrip(code);
    case TypeOid(oid) =>
      assert b[..4] == U32Bytes(oid) && b[4..] == tail;
      U32RoundTrip(oid);
    case Value(v) =>
      assert ItemsFit([it]) ==> ItemFits([it][0]);
      var n: i32 := if v.Some? then |v.value| else -1;
      hide I32Bytes, I32Of;
      I32RoundTrip(n);
      assert b[..4] == I32Bytes(n);
      if v.Some? {
        assert b[4..4 + n] == v.value && b[4 + n..] == tail;
      } else {
        assert b[4..] == tail;
      }
  }

  lemma {:induction false} ItemsBack(like: Item, items: seq<Item>, tail: seq<byte>)
    requires AllLike(like, items) && ItemsFit(items)
    ensures TakeItems(like, |items|, ItemsBytes(items) + tail) == Some((items, tail))
    decreases |items|
  {
    hide ItemBytes, TakeItem;
    if items == [] {
      assert ItemsBytes(items) + tail == tail;
    } else {
      var rest := ItemsBytes(items[1..]) + tail;
      assert ItemsBytes(items) + tail == ItemBytes(items[0]) + rest;
      ItemBack(like, items[0], rest);
      ItemsBack(like, items[1..], tail);
      assert items == [items[0]] + items[1..];
    }
  }

  lemma CountedBack(like: Item, items: seq<Item>, tail: seq<byte>)
    requires AllLike(like, items) && ItemsFit(items)
    ensures TakeCounted(like, Counted(items) + tail) == Some((items, tail))
  {
    hide ItemsBytes, U16Bytes, U16Of;
    var b := Counted(items) + tail;
    assert b[..2] == U16Bytes(|items|) && b[2..] == ItemsBytes(items) + tail;
    U16RoundTrip(|items|);
    ItemsBack(like, items, tail);
  }

  lemma {:induction false} FirstNulOfCstr(s: seq<byte>, tail: seq<byte>)
    requires 0 !in s
    ensures FirstNul(Cstr(s) + tail) == Some(|s|)
    decreases |s|
  {
    var b := Cstr(s) + tail;
    if s != [] {
      FirstNulOfCstr(s[1..], tail);
      assert b[0] == s[0] && b[1..] == Cstr(s[1..]) + tail;
    }
  }

  lemma CstrBack(s: seq<byte>, tail: seq<byte>)
    requires 0 !in s
    ensures ReadCstr(Cstr(s) + tail) == Ok((s, tail))
  {
    FirstNulOfCstr(s, tail);
    var b := Cstr(s) + tail;
    assert b[..|s|] == s && b[|s| + 1..] == tail;
  }

  function CodesOf(items: seq<Item>): Option<seq<i16>> {
    if forall i :: 0 <= i < |items| ==> items[i].FormatCode?
    then Some(seq(|items|, i requires 0 <= i < |items| && items[i].FormatCode? => items[i].code))
    else None
  }

  function OidsOf(items: seq<Item>): Option<seq<u32>> {
    if forall i :: 0 <= i < |items| ==> items[i].TypeOid?
    then Some(seq(|items|, i requires 0 <= i < |items| && items[i].TypeOid? => items[i].oid))
    else None
  }

  function ValuesOf(items: seq<Item>): Option<seq<Slots.Value>> {
    if forall i :: 0 <= i < |items| ==> items[i].Value?
    then Some(seq(|items|, i requires 0 <= i < |items| && items[i].Value? => items[i].value))
    else None
  }

  // A counted list of 16-bit codes.
  function TakeCodes(b: seq<byte>): Option<(seq<i16>, seq<byte>)> {
    match TakeCounted(FormatCode(0), b)
    case None => None
    case Some((items, rest)) =>
      match CodesOf(items) case None => None case Some(xs) => Some((xs, rest))
  }

  function TakeOids(b: seq<byte>): Option<(seq<u32>, seq<byte>)> {
    match TakeCounted(TypeOid(0), b)
    case None => None
    case Some((items, rest)) =>
      match OidsOf(items) case None => None case Some(xs) => Some((xs, rest))
  }

  function TakeValues(b: seq<byte>): Option<(seq<Slots.Value>, seq<byte>)> {
    match TakeCounted(Value(None), b)
    case None => None
    case Some((items, rest)) =>
      match ValuesOf(items) case None => None case Some(xs) => Some((xs, rest))
  }

  // A body that is one string, and one that is a kind and a name.
  function OneCstr(b: seq<byte>): Option<seq<byte>> {
    match ReadCstr(b)
    case Err(_) => None
    case Ok((s, rest)) => if rest == [] then Some(s) else None
  }

  function ReadNamed(b: seq<byte>): Option<(byte, seq<byte>)> {
    if b == [] then None
    else match OneCstr(b[1..]) case None => None case Some(name) => Some((b[0], name))
  }

  function ReadBind(body: seq<byte>): Option<FrontMsg> {
    match ReadCstr(body)
    case Err(_) => None
    case Ok((portal, b1)) =>
      match ReadCstr(b1)
      case Err(_) => None
      case Ok((statement, b2)) =>
        match TakeCodes(b2)
        case None => None
        case Some((formats, b3)) =>
          match TakeValues(b3)
          case None => None
          case Some((values, b4)) =>
            match TakeCodes(b4)
            case None => None
            case Some((results, b5)) =>
              if b5 == [] then Some(Bind(portal, statement, formats, values, results)) else None
  }

  function ReadParse(body: seq<byte>): Option<FrontMsg> {
    match ReadCstr(body)
    case Err(_) => None
    case Ok((name, b1)) =>
      match ReadCstr(b1)
      case Err(_) => None
      case Ok((query, b2)) =>
        match TakeOids(b2)
        case None => None
        case Some((oids, b3)) => if b3 == [] then Some(Parse(name, query, oids)) else None
  }

  /** Reads one frontend frame as the protocol's message formats lay it out. */
  function ReadFront(f: Frame): Option<FrontMsg> {
    if f.tag == 'B' as byte then ReadBind(f.body)
    else if f.tag == 'P' as byte then ReadParse(f.body)
    else if f.tag == 'E' as byte then
      match ReadCstr(f.body)
      case Err(_) => None
      case Ok((portal, rest)) => if |rest| == 4 then Some(Execute(portal, I32Of(rest))) else None
    else if f.tag == 'C' as byte then
      match ReadNamed(f.body) case None => None case Some((variant, name)) => Some(FrontMsg.Close(variant, name))
    else if f.tag == 'D' as byte then
      match ReadNamed(f.body) case None => None case Some((variant, name)) => Some(Describe(variant, name))
    else if f.tag == 'Q' as byte then
      match OneCstr(f.body) case None => None case Some(q) => Some(Query(q))
    else if f.tag == 'f' as byte then
      match OneCstr(f.body) case None => None case Some(q) => Some(CopyFailed(q))
    else if f.tag == 'd' as byte then Some(CopyBytes(f.body))
    else if f.body != [] then None
    else if f.tag == 'c' as byte then Some(CopyFinished)
    else if f.tag == 'H' as byte then Some(Flush)
    else if f.tag == 'S' as byte then Some(Sync)
    else if f.tag == 'X' as byte then Some(Terminate)
    else None
  }

  /** Reads a whole stream of frontend frames. */
  function ReadAll(b: seq<byte>): Option<seq<FrontMsg>>
    decreases |b|
  {
    if b == [] then Some([])
    else match ParseHeader(b)
      case Err(_) => None
      case Ok(None) => None
      case Ok(Some(h)) =>
        if |b| < h.len + 1 then None
        else match ReadFront(Frame(h.tag, b[5..h.len + 1]))
          case None => None
          case Some(m) =>
            match ReadAll(b[h.len + 1..])
            case None => None
            case Some(more) => Some([m] + more)
  }

  lemma CodesBack(xs: seq<i16>, tail: seq<byte>)
    requires ItemsFit(Codes(xs))
    ensures TakeCodes(Counted(Codes(xs)) + tail) == Some((xs, tail))
  {
    hide Counted, TakeCounted;
    CountedBack(FormatCode(0), Codes(xs), tail);
    assert CodesOf(Codes(xs)).value == xs;
  }

  lemma OidsBack(xs: seq<u32>, tail: seq<byte>)
    requires ItemsFit(Oids(xs))
    ensures TakeOids(Counted(Oids(xs)) + tail) == Some((xs, tail))
  {
    hide Counted, TakeCounted;
    CountedBack(TypeOid(0), Oids(xs), tail);
    assert OidsOf(Oids(xs)).value == xs;
  }

  lemma ValuesBack(xs: seq<Slots.Value>, tail: seq<byte>)
    requires ItemsFit(Values(xs))
    ensures TakeValues(Counted(Values(xs)) + tail) == Some((xs, tail))
  {
    hide Counted, TakeCounted;
    CountedBack(Value(None), Values(xs), tail);
    assert ValuesOf(Values(xs)).value == xs;
  }

  lemma OneCstrBack(s: seq<byte>)
    requires 0 !in s
    ensures OneCstr(Cstr(s)) == Some(s)
  {
    CstrBack(s, []);
    assert Cstr(s) + [] == Cstr(s);
  }

  lemma NamedBack(variant: byte, name: seq<byte>)
    requires 0 !in name
    ensures ReadNamed([variant] + Cstr(name)) == Some((variant, name))
  {
    hide Cstr, OneCstr;
    OneCstrBack(name);
    assert ([variant] + Cstr(name))[1..] == Cstr(name);
  }

  lemma BindBack(m: FrontMsg)
    requires m.Bind? && Encodable(m)
    ensures ReadBind(Body(m)) == Some(m)
  {
    hide Cstr, Counted, ReadCstr, TakeCodes, TakeValues, ItemsFit;
    var last := Counted(Codes(m.resultFormats));
    var values := Counted(Values(m.values)) + last;
    var formats := Counted(Codes(m.formats)) + values;
    CstrBack(m.portal, Cstr(m.statement) + formats);
    CstrBack(m.statement, formats);
    CodesBack(m.formats, values);
    ValuesBack(m.values, last);
    CodesBack(m.resultFormats, []);
    assert last + [] == last;
  }

  lemma ParseBack(m: FrontMsg)
    requires m.Parse? && Encodable(m)
    ensures ReadParse(Body(m)) == Some(m)
  {
    hide Cstr, Counted, ReadCstr, TakeOids, ItemsFit;
    var oids := Counted(Oids(m.paramTypes));
    CstrBack(m.name, Cstr(m.query) + oids);
    CstrBack(m.query, oids);
    OidsBack(m.paramTypes, []);
    assert oids + [] == oids;
  }

  /** Every message the serializers can write is read back as itself. */
  lemma MessageBack(m: FrontMsg)
    requires Encodable(m)
    ensures ReadFront(FrameOf(m)) == Some(m)
  {
    hide Cstr, Counted, ReadCstr, ReadBind, ReadParse, ReadNamed, OneCstr, ItemsFit, I32Bytes, I32Of;
    match m
    case Bind(_, _, _, _, _) => BindBack(m);
    case Parse(_, _, _) => ParseBack(m);
    case Execute(portal, maxRows) =>
      CstrBack(portal, I32Bytes(maxRows));
      I32RoundTrip(maxRows);
    case Close(variant, name) => NamedBack(variant, name);
    case Describe(variant, name) => NamedBack(variant, name);
    case Query(sql) => OneCstrBack(sql);
    case CopyFailed(reason) => OneCstrBack(reason);
    case _ =>
  }

  function WireAll(ms: seq<FrontMsg>): seq<byte> {
    if ms == [] then [] else Wire(ms[0]) + WireAll(ms[1..])
  }

  lemma ReadOne(m: FrontMsg, tail: seq<byte>)
    requires Encodable(m)
    ensures ReadAll(Wire(m) + tail)
         == match ReadAll(tail) case None => None case Some(more) => Some([m] + more)
  {
    hide Encodable, Encode, ReadFront, FrameOf;
    var f := FrameOf(m);
    FramesFit(m);
    EncodedHeader(f, tail);
    EncodedLength(f, tail);
    MessageBack(m);
  }

  /** A stream of serialized messages parses back to exactly those messages. */
  lemma {:induction false} StreamBack(ms: seq<FrontMsg>)
    requires forall i :: 0 <= i < |ms| ==> Encodable(ms[i])
    ensures ReadAll(WireAll(ms)) == Some(ms)
    decreases |ms|
  {
    hide Encodable, Wire, ReadAll;
    if ms == [] {
      ReadNothing();
    } else {
      ReadOne(ms[0], WireAll(ms[1..]));
      StreamBack(ms[1..]);
      assert ms == [ms[0]] + ms[1..];
    }
  }

  lemma ReadNothing()
    ensures ReadAll([]) == Some([])
  {}

  lemma WireOne(a: FrontMsg)
    ensures WireAll([a]) == Wire(a)
  {
    hide Wire;
    assert [a][1..] == [];
    assert WireAll([a]) == Wire(a) + WireAll([]);
  }

  lemma WireCons(a: FrontMsg, ms: seq<FrontMsg>)
    ensures WireAll([a] + ms) == Wire(a) + WireAll(ms)
  {
    hide Wire;
    assert ([a] + ms)[1..] == ms;
  }

  lemma WireThree(a: FrontMsg, b: FrontMsg, c: FrontMsg)
    ensures WireAll([a, b, c]) == Wire(a) + Wire(b) + Wire(c)
  {
    hide Wire, WireAll;
    WireOne(c);
    WireCons(b, [c]);
    WireCons(a, [b, c]);
    assert [a] + [b, c] == [a, b, c] && [b] + [c] == [b, c];
  }

  lemma FramesFit(m: FrontMsg)
    requires Encodable(m)
    ensures WellFormed(FrameOf(m))
  {
    hide Body, ItemsFit;
  }

  lemma {:induction false} ItemsSnoc(items: seq<Item>, it: Item)
    ensures ItemsBytes(items + [it]) == ItemsBytes(items) + ItemBytes(it)
    decreases |items|
  {
    hide ItemBytes;
    if items == [] {
      assert items + [it] == [it];
    } else {
      ItemsSnoc(items[1..], it);
      assert (items + [it])[1..] == items[1..] + [it];
    }
  }
}
