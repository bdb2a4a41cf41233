/** Server types as the client knows them. */
module Types {
  import opened Bytes

  /** Enum labels are held as the bytes that travel on the wire. */
  datatype Kind =
    | Simple
    | Pseudo
    | Enum(variants: seq<seq<byte>>)
    | Domain(base: Type)
    | Array(member: Type)
    | Range(subtype: Type)
    | Composite(fields: seq<Field>)

  datatype Field = Field(name: string, type_: Type)

  datatype Type = Type(name: string, oid: u32, kind: Kind, schema: string)

  const CATALOG: string := "pg_catalog"

  const BYTEA := Type("bytea", 17, Simple, CATALOG)
  const INT4 := Type("int4", 23, Simple, CATALOG)
  const TEXT := Type("text", 25, Simple, CATALOG)
  const INT2_VECTOR_OID: u32 := 22
  const OID_VECTOR_OID: u32 := 30
  const DATE := Type("date", 1082, Simple, CATALOG)
  const TIME := Type("time", 1083, Simple, CATALOG)
  const TIMESTAMP := Type("timestamp", 1114, Simple, CATALOG)
  const JSONB := Type("jsonb", 3802, Simple, CATALOG)
}
