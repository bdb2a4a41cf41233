/**
 The MySQL compatibility layer: which of the server's types are exchanged under the codec of
 another type.
 */
module MysqlTypes {
  import opened Bytes
  import opened Wrappers
  import opened Types

  datatype Mode = Pg | Oracle | Mysql | SqlServer

  const SYS_SCHEMA: string := "sys"

  const DATE_OID: u32 := 7944
  const TIME_OID: u32 := 7950
  const DATETIME_OID: u32 := 7952
  const BINARY_OID: u32 := 3383
  const VARBINARY_OID: u32 := 3384
  const MEDIUMINT_OID: u32 := 7016
  const LONGTEXT_OID: u32 := 7018
  const MEDIUMTEXT_OID: u32 := 7019
  const TINYTEXT_OID: u32 := 7020
  const LONGBLOB_OID: u32 := 7021
  const MEDIUMBLOB_OID: u32 := 7022
  const TINYBLOB_OID: u32 := 7023
  const JSON_OID: u32 := 7024
  const BLOB_OID: u32 := 8013
  const TINYINT_OID: u32 := 8100

  datatype Strategy = CustomPending

  datatype Mapping = Mapping(oid: u32, name: string, schema: string, strategy: Strategy)

  const MAPPINGS: seq<Mapping> := [Mapping(TINYINT_OID, "tinyint", SYS_SCHEMA, CustomPending)]

  // The first mapping of that type.
  function Find(mappings: seq<Mapping>, name: string, oid: u32, kind: Kind, schema: string): Option<Mapping> {
    if mappings == [] then None
    else
      var m := mappings[0];
      if m.oid == oid && m.name == name && m.schema == schema && kind.Simple? then Some(m)
      else Find(mappings[1..], name, oid, kind, schema)
  }

  /** A recognised type is still left to the ordinary path. */
  function MapMysqlType(name: string, oid: u32, kind: Kind, schema: string): Option<Type> {
    match Find(MAPPINGS, name, oid, kind, schema)
    case Some(m) => (match m.strategy case CustomPending => None)
    case None => None
  }

  predicate IsDomainOver(t: Type, base: Type) {
    t.kind.Domain? && t.kind.base == base
  }

  predicate IsSysBlobDomain(t: Type) {
    t.kind.Domain? &&
    var base := t.kind.base;
    base.schema == SYS_SCHEMA && base.oid == BLOB_OID && base.name == "blob" && IsDomainOver(base, BYTEA)
  }

  /** The codec a column of the type is read with. */
  function ReadAlias(t: Type): Option<Type> {
    if t.schema != SYS_SCHEMA || !t.kind.Simple? then None
    else if t.oid == DATE_OID && t.name == "date" then Some(DATE)
    else if t.oid == TIME_OID && t.name == "time" then Some(TIME)
    else if t.oid == DATETIME_OID && t.name == "datetime" then Some(TIMESTAMP)
    else if (t.oid == BINARY_OID && t.name == "binary") || (t.oid == VARBINARY_OID && t.name == "varbinary") then
      Some(BYTEA)
    else None
  }

  /** The codec a parameter of the type may be written with. */
  function ParamAlias(t: Type): Option<Type> {
    if t.schema != SYS_SCHEMA then None
    else if t.oid == DATE_OID && t.name == "date" && t.kind.Simple? then Some(DATE)
    else if t.oid == TIME_OID && t.name == "time" && t.kind.Simple? then Some(TIME)
    else if t.oid == DATETIME_OID && t.name == "datetime" && t.kind.Simple? then Some(TIMESTAMP)
    else if ((t.oid == BINARY_OID && t.name == "binary") || (t.oid == VARBINARY_OID && t.name == "varbinary")) &&
      t.kind.Simple?
    then Some(BYTEA)
    else if t.oid == MEDIUMINT_OID && t.name == "mediumint" && IsDomainOver(t, INT4) then Some(INT4)
    else if ((t.oid == TINYTEXT_OID && t.name == "tinytext") || (t.oid == MEDIUMTEXT_OID && t.name == "mediumtext") ||
             (t.oid == LONGTEXT_OID && t.name == "longtext")) && IsDomainOver(t, TEXT)
    then Some(TEXT)
    else if t.oid == BLOB_OID && t.name == "blob" && IsDomainOver(t, BYTEA) then Some(BYTEA)
    else if ((t.oid == TINYBLOB_OID && t.name == "tinyblob") || (t.oid == MEDIUMBLOB_OID && t.name == "mediumblob") ||
             (t.oid == LONGBLOB_OID && t.name == "longblob")) && IsSysBlobDomain(t)
    then Some(BYTEA)
    else if t.oid == JSON_OID && t.name == "json" && IsDomainOver(t, JSONB) then Some(JSONB)
    else None
  }

  /** The type a domain stands for, through every domain in between. */
  function UltimateBase(t: Type): Type
    decreases t
  {
    match t.kind case Domain(base) => UltimateBase(base) case _ => t
  }

  /** A domain's parameters are written with the codec of the type it ultimately stands for. */
  lemma DomainAliasIsBase(t: Type)
    requires t.kind.Domain? && ParamAlias(t).Some?
    ensures ParamAlias(t).value == UltimateBase(t)
  {
    if IsSysBlobDomain(t) {
      assert UltimateBase(t.kind.base) == UltimateBase(BYTEA);
    }
    assert forall b :: b in {INT4, TEXT, BYTEA, JSONB} ==> UltimateBase(b) == b;
  }

  /** The PostgreSQL type a simple MySQL type goes by: its namesake, or the one that means the same. */
  const MEANING: map<string, Type> :=
    map["date" := DATE, "time" := TIME, "datetime" := TIMESTAMP, "binary" := BYTEA, "varbinary" := BYTEA]

  /** A simple type is read and written under the type its name means, and only in its own schema. */
  lemma SimpleAliasIsMeaning(t: Type)
    ensures ReadAlias(t).Some? ==>
      t.schema == SYS_SCHEMA && t.kind.Simple? && t.name in MEANING && ReadAlias(t) == Some(MEANING[t.name])
    ensures t.kind.Simple? ==> ParamAlias(t) == ReadAlias(t)
  {}

  lemma NothingIsMapped(name: string, oid: u32, kind: Kind, schema: string)
    ensures MapMysqlType(name, oid, kind, schema) == None
  {}
}
