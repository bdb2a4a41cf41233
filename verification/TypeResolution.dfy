/**
 Resolving type OIDs against the server's catalog, with the client's cache in between and
 other lookups interfering at every wait.
 */
module TypeResolution {
  import opened Bytes
  import opened Wrappers
  import opened Sequences
  import opened Types
  import opened MysqlTypes

  /** One row of the type query. */
  datatype Row = Row(name: string, typtype: char, elem: u32, rangeSubtype: Option<u32>, base: u32,
    schema: string, relid: u32)

  datatype Attribute = Attribute(name: string, type_: u32)

  /**
   The server's catalog, and the table of built-in types that the client knows without
   asking. `labels` and `attributes` answer the enum and composite queries.
   */
  datatype Catalog = Catalog(
    builtin: map<u32, Type>,
    rows: map<u32, Row>,
    labels: u32 -> seq<seq<byte>>,
    attributes: u32 -> seq<Attribute>)

  datatype Error = UnexpectedMessage

  /** The OIDs that resolving a row looks up. */
  function References(c: Catalog, row: Row): seq<u32> {
    if row.typtype == 'e' || row.typtype == 'p' then []
    else if row.base != 0 then [row.base]
    else if row.elem != 0 then [row.elem]
    else if row.relid != 0 then
      var attributes := c.attributes(row.relid);
      seq(|attributes|, i requires 0 <= i < |attributes| => attributes[i].type_)
    else match row.rangeSubtype case Some(r) => [r] case None => []
  }

  /** No type is built from itself: whatever is looked up ranks lower, the built-in types lowest. */
  ghost predicate Acyclic(c: Catalog, rank: u32 -> nat) {
    && (forall oid :: oid in c.builtin ==> rank(oid) == 0)
    && (forall oid :: oid !in c.builtin ==> rank(oid) > 0)
    && (forall oid :: oid in c.rows && oid !in c.builtin ==>
          forall i :: 0 <= i < |References(c, c.rows[oid])| ==> rank(References(c, c.rows[oid])[i]) < rank(oid))
  }

  // ---- What the catalog denotes ----

  ghost function Denote(c: Catalog, rank: u32 -> nat, oid: u32): Result<Type, Error>
    requires Acyclic(c, rank)
    decreases rank(oid), 1, 0
  {
    if oid in c.builtin then Ok(c.builtin[oid])
    else if oid !in c.rows then Err(UnexpectedMessage)
    else
      match DenoteKind(c, rank, oid)
      case Err(e) => Err(e)
      case Ok(kind) => Ok(Type(c.rows[oid].name, oid, kind, c.rows[oid].schema))
  }

  ghost function DenoteKind(c: Catalog, rank: u32 -> nat, oid: u32): Result<Kind, Error>
    requires Acyclic(c, rank) && oid in c.rows && oid !in c.builtin
    decreases rank(oid), 0, 1
  {
    var row := c.rows[oid];
    if row.typtype == 'e' then Ok(Enum(c.labels(oid)))
    else if row.typtype == 'p' then Ok(Pseudo)
    else if row.base != 0 then
      assert References(c, row)[0] == row.base;
      match Denote(c, rank, row.base) case Err(e) => Err(e) case Ok(t) => Ok(Domain(t))
    else if row.elem != 0 then
      assert References(c, row)[0] == row.elem;
      match Denote(c, rank, row.elem) case Err(e) => Err(e) case Ok(t) => Ok(Array(t))
    else if row.relid != 0 then
      match DenoteFields(c, rank, oid, 0) case Err(e) => Err(e) case Ok(fs) => Ok(Composite(fs))
    else if row.rangeSubtype.Some? then
      assert References(c, row)[0] == row.rangeSubtype.value;
      match Denote(c, rank, row.rangeSubtype.value) case Err(e) => Err(e) case Ok(t) => Ok(Range(t))
    else Ok(Simple)
  }

  predicate IsComposite(c: Catalog, oid: u32) {
    oid in c.rows && oid !in c.builtin &&
    var row := c.rows[oid];
    row.typtype != 'e' && row.typtype != 'p' && row.base == 0 && row.elem == 0 && row.relid != 0
  }

  // The fields of a composite from the `k`-th attribute on.
  ghost function DenoteFields(c: Catalog, rank: u32 -> nat, oid: u32, k: nat): Result<seq<Field>, Error>
    requires Acyclic(c, rank) && IsComposite(c, oid) && k <= |c.attributes(c.rows[oid].relid)|
    decreases rank(oid), 0, 0, |c.attributes(c.rows[oid].relid)| - k
  {
    var attributes := c.attributes(c.rows[oid].relid);
    if k == |attributes| then Ok([])
    else
      assert References(c, c.rows[oid])[k] == attributes[k].type_;
      match Denote(c, rank, attributes[k].type_)
      case Err(e) => Err(e)
      case Ok(t) => After([Field(attributes[k].name, t)], DenoteFields(c, rank, oid, k + 1))
  }

  lemma DenoteFieldsOne(c: Catalog, rank: u32 -> nat, oid: u32, k: nat, done: seq<Field>)
    requires Acyclic(c, rank) && IsComposite(c, oid) && k < |c.attributes(c.rows[oid].relid)|
    ensures var a := c.attributes(c.rows[oid].relid)[k];
      && rank(a.type_) < rank(oid)
      && After(done, DenoteFields(c, rank, oid, k))
         == (match Denote(c, rank, a.type_)
             case Err(e) => Err(e)
             case Ok(t) => After(done + [Field(a.name, t)], DenoteFields(c, rank, oid, k + 1)))
  {
    hide Denote;
    var a := c.attributes(c.rows[oid].relid)[k];
    assert References(c, c.rows[oid])[k] == a.type_;
    var t := Denote(c, rank, a.type_);
    if t.Ok? {
      AfterBoth(done, [Field(a.name, t.value)], DenoteFields(c, rank, oid, k + 1));
    }
  }

  lemma DenoteFieldsEnd(c: Catalog, rank: u32 -> nat, oid: u32, done: seq<Field>)
    requires Acyclic(c, rank) && IsComposite(c, oid)
    ensures After(done, DenoteFields(c, rank, oid, |c.attributes(c.rows[oid].relid)|)) == Ok(done)
  {
    assert done + [] == done;
  }

  /** The denotation is the catalog's own: it does not depend on how its types are ranked. */
  lemma {:induction false} DenotationIsUnique(c: Catalog, rank: u32 -> nat, rank': u32 -> nat, oid: u32)
    requires Acyclic(c, rank) && Acyclic(c, rank')
    ensures Denote(c, rank, oid) == Denote(c, rank', oid)
    decreases rank(oid), 1
  {
    if oid in c.rows && oid !in c.builtin {
      forall i | 0 <= i < |References(c, c.rows[oid])|
        ensures Denote(c, rank, References(c, c.rows[oid])[i]) == Denote(c, rank', References(c, c.rows[oid])[i])
      {
        DenotationIsUnique(c, rank, rank', References(c, c.rows[oid])[i]);
      }
      if IsComposite(c, oid) {
        SameFields(c, rank, rank', oid, 0);
      } else if |References(c, c.rows[oid])| > 0 {
        assert Denote(c, rank, References(c, c.rows[oid])[0]) == Denote(c, rank', References(c, c.rows[oid])[0]);
      }
    }
  }

  lemma SameFields(c: Catalog, rank: u32 -> nat, rank': u32 -> nat, oid: u32, k: nat)
    requires Acyclic(c, rank) && Acyclic(c, rank') && IsComposite(c, oid) && k <= |c.attributes(c.rows[oid].relid)|
    requires forall i :: 0 <= i < |References(c, c.rows[oid])| ==>
      Denote(c, rank, References(c, c.rows[oid])[i]) == Denote(c, rank', References(c, c.rows[oid])[i])
    ensures DenoteFields(c, rank, oid, k) == DenoteFields(c, rank', oid, k)
    decreases |c.attributes(c.rows[oid].relid)| - k
  {
    hide Denote, Acyclic;
    var attributes := c.attributes(c.rows[oid].relid);
    if k < |attributes| {
      assert References(c, c.rows[oid])[k] == attributes[k].type_;
      SameFields(c, rank, rank', oid, k + 1);
    }
  }

  // ---- What a finished type says of the catalog ----

  /** Neither an enum nor a pseudo-type: what it is shows in the columns that refer to other types. */
  predicate Referring(row: Row) {
    row.typtype != 'e' && row.typtype != 'p'
  }

  /**
   Is this the type the catalog describes under the OID? Read off the finished type: a built-in
   is itself, and every other node has its row's name and schema and the kind that the row
   calls for, over types that are described in turn.
   */
  ghost predicate Describes(c: Catalog, oid: u32, t: Type)
    decreases t
  {
    if oid in c.builtin then t == c.builtin[oid]
    else
      && oid in c.rows && t.oid == oid && t.name == c.rows[oid].name && t.schema == c.rows[oid].schema
      && var row := c.rows[oid];
      match t.kind
      case Enum(variants) => row.typtype == 'e' && variants == c.labels(oid)
      case Pseudo => row.typtype == 'p'
      case Domain(base) => Referring(row) && row.base != 0 && Describes(c, row.base, base)
      case Array(member) => Referring(row) && row.base == 0 && row.elem != 0 && Describes(c, row.elem, member)
      case Composite(fields) =>
        && Referring(row) && row.base == 0 && row.elem == 0 && row.relid != 0
        && var attributes := c.attributes(row.relid);
        && |fields| == |attributes|
        && forall i :: 0 <= i < |fields| ==>
            fields[i].name == attributes[i].name && Describes(c, attributes[i].type_, fields[i].type_)
      case Range(subtype) =>
        && Referring(row) && row.base == 0 && row.elem == 0 && row.relid == 0
        && row.rangeSubtype.Some? && Describes(c, row.rangeSubtype.value, subtype)
      case Simple => Referring(row) && row.base == 0 && row.elem == 0 && row.relid == 0 && row.rangeSubtype.None?
  }

  // The fields from the `k`-th attribute on.
  ghost predicate DescribesFields(c: Catalog, attributes: seq<Attribute>, k: nat, fields: seq<Field>) {
    && k + |fields| == |attributes|
    && forall i :: 0 <= i < |fields| ==>
        fields[i].name == attributes[k + i].name && Describes(c, attributes[k + i].type_, fields[i].type_)
  }

  /** A lookup gives a type exactly if the catalog describes that type under the OID. */
  lemma {:induction false} DenotesWhatIsDescribed(c: Catalog, rank: u32 -> nat, oid: u32, t: Type)
    requires Acyclic(c, rank)
    ensures Denote(c, rank, oid) == Ok(t) <==> Describes(c, oid, t)
    decreases rank(oid), 1, 0
  {
    if oid in c.rows && oid !in c.builtin {
      var row := c.rows[oid];
      if IsComposite(c, oid) {
        if t.kind.Composite? {
          FieldsDescribed(c, rank, oid, 0, t.kind.fields);
        }
      } else if |References(c, row)| > 0 {
        var r := References(c, row)[0];
        if t.kind.Domain? {
          DenotesWhatIsDescribed(c, rank, r, t.kind.base);
        } else if t.kind.Array? {
          DenotesWhatIsDescribed(c, rank, r, t.kind.member);
        } else if t.kind.Range? {
          DenotesWhatIsDescribed(c, rank, r, t.kind.subtype);
        }
      }
    }
  }

  lemma FieldsDescribed(c: Catalog, rank: u32 -> nat, oid: u32, k: nat, fields: seq<Field>)
    requires Acyclic(c, rank) && IsComposite(c, oid) && k <= |c.attributes(c.rows[oid].relid)|
    ensures DenoteFields(c, rank, oid, k) == Ok(fields)
       <==> DescribesFields(c, c.attributes(c.rows[oid].relid), k, fields)
    decreases rank(oid), 0, |c.attributes(c.rows[oid].relid)| - k
  {
    var attributes := c.attributes(c.rows[oid].relid);
    hide Denote, Describes;
    if k < |attributes| {
      assert References(c, c.rows[oid])[k] == attributes[k].type_;
      var first := Denote(c, rank, attributes[k].type_);
      if fields != [] {
        DenotesWhatIsDescribed(c, rank, attributes[k].type_, fields[0].type_);
        FieldsDescribed(c, rank, oid, k + 1, fields[1..]);
        assert fields == [fields[0]] + fields[1..];
        FieldsCons(c, attributes, k, fields);
      }
      if first.Ok? && DenoteFields(c, rank, oid, k + 1).Ok? {
        var more := DenoteFields(c, rank, oid, k + 1).value;
        assert ([Field(attributes[k].name, first.value)] + more)[1..] == more;
      }
    }
  }

  lemma FieldsCons(c: Catalog, attributes: seq<Attribute>, k: nat, fields: seq<Field>)
    requires k < |attributes| && fields != []
    ensures var first := fields[0].name == attributes[k].name && Describes(c, attributes[k].type_, fields[0].type_);
      DescribesFields(c, attributes, k, fields) <==> first && DescribesFields(c, attributes, k + 1, fields[1..])
  {
    hide Describes;
    if DescribesFields(c, attributes, k + 1, fields[1..]) {
      assert forall i :: 1 <= i < |fields| ==> fields[i] == fields[1..][i - 1];
    }
  }

  predicate Dangling(c: Catalog, oid: u32) {
    oid !in c.builtin && oid !in c.rows
  }

  /** A chain of references from a type to one the catalog has no row for. */
  predicate LeadsNowhere(c: Catalog, path: seq<u32>)
    decreases |path|
  {
    path != [] &&
    if |path| == 1 then Dangling(c, path[0])
    else
      && path[0] in c.rows && path[0] !in c.builtin && path[1] in References(c, c.rows[path[0]])
      && LeadsNowhere(c, path[1..])
  }

  lemma {:induction false} NowhereFails(c: Catalog, rank: u32 -> nat, path: seq<u32>)
    requires Acyclic(c, rank) && LeadsNowhere(c, path)
    ensures Denote(c, rank, path[0]).Err?
    decreases |path|
  {
    if |path| > 1 {
      NowhereFails(c, rank, path[1..]);
      var refs := References(c, c.rows[path[0]]);
      var k :| 0 <= k < |refs| && refs[k] == path[1];
      if IsComposite(c, path[0]) {
        FieldFails(c, rank, path[0], 0, k);
      }
    }
  }

  lemma FieldFails(c: Catalog, rank: u32 -> nat, oid: u32, j: nat, k: nat)
    requires Acyclic(c, rank) && IsComposite(c, oid) && j <= k < |c.attributes(c.rows[oid].relid)|
    requires Denote(c, rank, References(c, c.rows[oid])[k]).Err?
    ensures DenoteFields(c, rank, oid, j).Err?
    decreases k - j
  {
    hide Denote, Acyclic;
    assert References(c, c.rows[oid])[k] == c.attributes(c.rows[oid].relid)[k].type_;
    if j < k {
      FieldFails(c, rank, oid, j + 1, k);
    }
  }

  lemma FailsNowhere(c: Catalog, rank: u32 -> nat, oid: u32) returns (path: seq<u32>)
    requires Acyclic(c, rank) && Denote(c, rank, oid).Err?
    ensures path != [] && path[0] == oid && LeadsNowhere(c, path)
    decreases rank(oid), 1, 0
  {
    if Dangling(c, oid) {
      path := [oid];
    } else {
      var refs := References(c, c.rows[oid]);
      var k := if IsComposite(c, oid) then FailingField(c, rank, oid, 0) else 0;
      var rest := FailsNowhere(c, rank, refs[k]);
      path := [oid] + rest;
      assert path[1..] == rest;
    }
  }

  // Which attribute a composite fails on.
  ghost function FailingField(c: Catalog, rank: u32 -> nat, oid: u32, j: nat): (k: nat)
    requires Acyclic(c, rank) && IsComposite(c, oid) && j <= |c.attributes(c.rows[oid].relid)|
    requires DenoteFields(c, rank, oid, j).Err?
    ensures k < |References(c, c.rows[oid])| && Denote(c, rank, References(c, c.rows[oid])[k]).Err?
    decreases |c.attributes(c.rows[oid].relid)| - j
  {
    assert References(c, c.rows[oid])[j] == c.attributes(c.rows[oid].relid)[j].type_;
    if Denote(c, rank, References(c, c.rows[oid])[j]).Err? then j else FailingField(c, rank, oid, j + 1)
  }

  /** A lookup fails exactly when the type refers, through any number of others, to a missing row. */
  lemma FailsExactlyWhenDangling(c: Catalog, rank: u32 -> nat, oid: u32)
    requires Acyclic(c, rank)
    ensures Denote(c, rank, oid).Err? <==> exists path :: LeadsNowhere(c, path) && path[0] == oid
  {
    hide Denote, Acyclic;
    if Denote(c, rank, oid).Err? {
      var path := FailsNowhere(c, rank, oid);
    } else if path :| LeadsNowhere(c, path) && path[0] == oid {
      NowhereFails(c, rank, path);
    }
  }

  // ---- The cache and its users ----

  /** What another task may do to the shared cache while this one waits. */
  datatype Event = Stored(oid: u32, type_: Type) | Cleared

  /** Another lookup stores only what it resolved. */
  ghost predicate Honest(c: Catalog, rank: u32 -> nat, e: Event)
    requires Acyclic(c, rank)
  {
    e.Stored? ==> Denote(c, rank, e.oid) == Ok(e.type_)
  }

  ghost predicate Coherent(c: Catalog, rank: u32 -> nat, types: map<u32, Type>)
    requires Acyclic(c, rank)
  {
    forall oid :: oid in types ==> Denote(c, rank, oid) == Ok(types[oid])
  }

  // The built-in types that the catalog queries themselves exchange.
  const CHAR_OID: u32 := 18
  const NAME_OID: u32 := 19
  const OID_OID: u32 := 26
  const TYPEINFO_PARAMS: seq<u32> := [OID_OID]
  const TYPEINFO_COLUMNS: seq<u32> := [NAME_OID, CHAR_OID, OID_OID, OID_OID, OID_OID, NAME_OID, OID_OID]
  const ENUM_COLUMNS: seq<u32> := [NAME_OID]
  const COMPOSITE_COLUMNS: seq<u32> := [NAME_OID, OID_OID]

  function Alias(mode: Mode, alias: Type -> Option<Type>, t: Type): Option<Type> {
    match mode case Mysql => alias(t) case _ => None
  }

  /** A prepared statement's parameters and columns, each with the alias it may travel under. */
  datatype Prepared = Prepared(params: seq<Type>, paramAliases: seq<Option<Type>>, columns: seq<Type>,
    columnAliases: seq<Option<Type>>)

  class InnerClient {
    const catalog: Catalog
    ghost const rank: u32 -> nat
    var mode: Mode
    var types: map<u32, Type>
    var typeinfo: bool
    var typeinfoEnum: bool
    var typeinfoComposite: bool
    var others: seq<seq<Event>>

    ghost predicate Valid()
      reads this
    {
      && Acyclic(catalog, rank)
      && CHAR_OID in catalog.builtin && NAME_OID in catalog.builtin && OID_OID in catalog.builtin
      && Coherent(catalog, rank, types)
      && (forall i, j :: 0 <= i < |others| && 0 <= j < |others[i]| ==> Honest(catalog, rank, others[i][j]))
    }

    constructor (catalog: Catalog, ghost rank: u32 -> nat, mode: Mode, others: seq<seq<Event>>)
      requires Acyclic(catalog, rank)
      requires CHAR_OID in catalog.builtin && NAME_OID in catalog.builtin && OID_OID in catalog.builtin
      requires forall i, j :: 0 <= i < |others| && 0 <= j < |others[i]| ==> Honest(catalog, rank, others[i][j])
      ensures Valid() && this.catalog == catalog && this.mode == mode && this.rank == rank
    {
      this.catalog := catalog;
      this.rank := rank;
      this.mode := mode;
      this.others := others;
      types := map[];
      typeinfo, typeinfoEnum, typeinfoComposite := false, false, false;
    }

    /** Every wait gives the other tasks a turn at the cache. */
    method Wait()
      requires Valid()
      modifies this`types, this`others
      ensures Valid()
    {
      if others != [] {
        var events := others[0];
        assert forall j :: 0 <= j < |events| ==> Honest(catalog, rank, events[j]);
        assert forall i, j :: 0 <= i < |others[1..]| && 0 <= j < |others[1..][i]| ==>
          others[1..][i][j] == others[i + 1][j];
        others := others[1..];
        for i := 0 to |events|
          invariant Valid()
        {
          match events[i] {
            case Stored(oid, t) => types := types[oid := t];
            case Cleared => types := map[];
          }
        }
      }
    }

    /** `set_type`: every lookup that stores a type stores what its OID denotes. */
    method SetType(oid: u32, t: Type)
      requires Valid() && Denote(catalog, rank, oid) == Ok(t)
      modifies this`types
      ensures Valid() && types == old(types)[oid := t]
    {
      types := types[oid := t];
    }

    method ClearTypeCache()
      requires Valid()
      modifies this`types
      ensures Valid() && types == map[]
    {
      types := map[];
    }

    /** `get_type`: the type described under the OID, whatever the cache held and the mode is. */
    method GetType(oid: u32) returns (r: Result<Type, Error>)
      requires Valid()
      modifies this`types, this`others, this`typeinfo, this`typeinfoEnum, this`typeinfoComposite
      ensures Valid() && r == Denote(catalog, rank, oid)
      ensures forall t :: r == Ok(t) <==> Describes(catalog, oid, t)
      decreases rank(oid), 1
    {
      hide MapMysqlType, Describes;
      forall t
        ensures Denote(catalog, rank, oid) == Ok(t) <==> Describes(catalog, oid, t)
      {
        DenotesWhatIsDescribed(catalog, rank, oid, t);
      }
      if oid in catalog.builtin {
        return Ok(catalog.builtin[oid]);
      }
      if oid in types {
        return Ok(types[oid]);
      }
      TypeinfoStatement();
      Wait();
      if oid !in catalog.rows {
        return Err(UnexpectedMessage);
      }
      var row := catalog.rows[oid];
      var kind := GetKind(oid);
      if kind.Err? {
        return Err(kind.error);
      }
      var mapped := if mode == Mysql then MapMysqlType(row.name, oid, kind.value, row.schema) else None;
      var t := if mapped.Some? then mapped.value else Type(row.name, oid, kind.value, row.schema);
      NothingIsMapped(row.name, oid, kind.value, row.schema);
      SetType(oid, t);
      return Ok(t);
    }

    method GetKind(oid: u32) returns (r: Result<Kind, Error>)
      requires Valid() && oid in catalog.rows && oid !in catalog.builtin
      modifies this`types, this`others, this`typeinfo, this`typeinfoEnum, this`typeinfoComposite
      ensures Valid() && r == DenoteKind(catalog, rank, oid)
      decreases rank(oid), 0, 1
    {
      hide Coherent, Honest;
      var row := catalog.rows[oid];
      if row.typtype == 'e' {
        TypeinfoEnumStatement();
        Wait();
        return Ok(Enum(catalog.labels(oid)));
      } else if row.typtype == 'p' {
        return Ok(Pseudo);
      } else if row.base != 0 {
        assert References(catalog, row)[0] == row.base;
        var t := GetType(row.base);
        return match t case Err(e) => Err(e) case Ok(t) => Ok(Domain(t));
      } else if row.elem != 0 {
        assert References(catalog, row)[0] == row.elem;
        var t := GetType(row.elem);
        return match t case Err(e) => Err(e) case Ok(t) => Ok(Array(t));
      } else if row.relid != 0 {
        var fields := GetCompositeFields(oid);
        return match fields case Err(e) => Err(e) case Ok(fs) => Ok(Composite(fs));
      } else if row.rangeSubtype.Some? {
        assert References(catalog, row)[0] == row.rangeSubtype.value;
        var t := GetType(row.rangeSubtype.value);
        return match t case Err(e) => Err(e) case Ok(t) => Ok(Range(t));
      }
      return Ok(Simple);
    }

    method GetCompositeFields(oid: u32) returns (r: Result<seq<Field>, Error>)
      requires Valid() && IsComposite(catalog, oid)
      modifies this`types, this`others, this`typeinfo, this`typeinfoEnum, this`typeinfoComposite
      ensures Valid() && r == DenoteFields(catalog, rank, oid, 0)
      decreases rank(oid), 0, 0
    {
      assert oid in catalog.rows && rank(oid) > 0;
      hide *;
      TypeinfoCompositeStatement();
      Wait();
      var attributes := catalog.attributes(catalog.rows[oid].relid);
      var fields: seq<Field> := [];
      AfterNothing(DenoteFields(catalog, rank, oid, 0));
      for k := 0 to |attributes|
        invariant Valid()
        invariant DenoteFields(catalog, rank, oid, 0) == After(fields, DenoteFields(catalog, rank, oid, k))
      {
        DenoteFieldsOne(catalog, rank, oid, k, fields);
        var t := GetType(attributes[k].type_);
        if t.Err? {
          return Err(t.error);
        }
        fields := fields + [Field(attributes[k].name, t.value)];
      }
      DenoteFieldsEnd(catalog, rank, oid, fields);
      return Ok(fields);
    }

    // The catalog queries exchange built-in types only, so preparing them asks nothing further.
    method TypeinfoStatement()
      requires Valid()
      modifies this`types, this`others, this`typeinfo, this`typeinfoEnum, this`typeinfoComposite
      ensures Valid()
      decreases 0, 4, 0
    {
      if !typeinfo {
        var prepared := Prepare(TYPEINFO_PARAMS, TYPEINFO_COLUMNS, 0);
        typeinfo := true;
      }
    }

    method TypeinfoEnumStatement()
      requires Valid()
      modifies this`types, this`others, this`typeinfo, this`typeinfoEnum, this`typeinfoComposite
      ensures Valid()
      decreases 0, 4, 0
    {
      if !typeinfoEnum {
        var prepared := Prepare([OID_OID], ENUM_COLUMNS, 0);
        typeinfoEnum := true;
      }
    }

    method TypeinfoCompositeStatement()
      requires Valid()
      modifies this`types, this`others, this`typeinfo, this`typeinfoEnum, this`typeinfoComposite
      ensures Valid()
      decreases 0, 4, 0
    {
      if !typeinfoComposite {
        var prepared := Prepare([OID_OID], COMPOSITE_COLUMNS, 0);
        typeinfoComposite := true;
      }
    }

    /** The types of a list of OIDs, in order, up to the first that cannot be resolved. */
    method GetTypes(oids: seq<u32>, ghost top: nat) returns (r: Result<seq<Type>, Error>)
      requires Valid() && forall i :: 0 <= i < |oids| ==> rank(oids[i]) <= top
      modifies this`types, this`others, this`typeinfo, this`typeinfoEnum, this`typeinfoComposite
      ensures Valid()
      ensures r.Ok? ==> |r.value| == |oids|
      ensures r.Ok? ==> forall i :: 0 <= i < |oids| ==> Denote(catalog, rank, oids[i]) == Ok(r.value[i])
      ensures r.Err? ==> exists i :: 0 <= i < |oids| && Denote(catalog, rank, oids[i]) == Err(r.error)
      decreases top, 2, 0
    {
      hide Coherent, Honest;
      var found: seq<Type> := [];
      for i := 0 to |oids|
        invariant Valid() && |found| == i && forall k :: 0 <= k < i ==> Denote(catalog, rank, oids[k]) == Ok(found[k])
      {
        var t := GetType(oids[i]);
        if t.Err? {
          return Err(t.error);
        }
        found := found + [t.value];
      }
      return Ok(found);
    }

    /** `prepare`, from the descriptions the server sends back. */
    method Prepare(params: seq<u32>, columns: seq<u32>, ghost top: nat) returns (r: Result<Prepared, Error>)
      requires Valid()
      requires forall i :: 0 <= i < |params| ==> rank(params[i]) <= top
      requires forall i :: 0 <= i < |columns| ==> rank(columns[i]) <= top
      modifies this`types, this`others, this`typeinfo, this`typeinfoEnum, this`typeinfoComposite
      ensures Valid()
      ensures r.Ok? <==>
        (forall i :: 0 <= i < |params| ==> Denote(catalog, rank, params[i]).Ok?) &&
        (forall i :: 0 <= i < |columns| ==> Denote(catalog, rank, columns[i]).Ok?)
      ensures r.Ok? ==> |r.value.params| == |r.value.paramAliases| == |params|
      ensures r.Ok? ==> |r.value.columns| == |r.value.columnAliases| == |columns|
      ensures r.Ok? ==> forall i :: 0 <= i < |params| ==>
        && Denote(catalog, rank, params[i]) == Ok(r.value.params[i])
        && Describes(catalog, params[i], r.value.params[i])
        && r.value.paramAliases[i] == if mode == Mysql then ParamAlias(r.value.params[i]) else None
      ensures r.Ok? ==> forall i :: 0 <= i < |columns| ==>
        && Denote(catalog, rank, columns[i]) == Ok(r.value.columns[i])
        && Describes(catalog, columns[i], r.value.columns[i])
        && r.value.columnAliases[i] == if mode == Mysql then ReadAlias(r.value.columns[i]) else None
      decreases top, 3, 0
    {
      hide Coherent, Honest, ParamAlias, ReadAlias, Describes;
      Wait();
      var ps := GetTypes(params, top);
      if ps.Err? {
        return Err(ps.error);
      }
      var cs := GetTypes(columns, top);
      if cs.Err? {
        return Err(cs.error);
      }
      forall i | 0 <= i < |params|
        ensures Describes(catalog, params[i], ps.value[i])
      {
        DenotesWhatIsDescribed(catalog, rank, params[i], ps.value[i]);
      }
      forall i | 0 <= i < |columns|
        ensures Describes(catalog, columns[i], cs.value[i])
      {
        DenotesWhatIsDescribed(catalog, rank, columns[i], cs.value[i]);
      }
      return Ok(Prepared(ps.value, Aliases(mode, ParamAlias, ps.value), cs.value, Aliases(mode, ReadAlias, cs.value)));
    }
  }

  function Aliases(mode: Mode, alias: Type -> Option<Type>, ts: seq<Type>): (r: seq<Option<Type>>)
    ensures |r| == |ts| && forall i :: 0 <= i < |r| ==> r[i] == Alias(mode, alias, ts[i])
  {
    seq(|ts|, i requires 0 <= i < |ts| => Alias(mode, alias, ts[i]))
  }
}
