// The VSchema table description shared by query planning and schema diffing.
module Vindexes {

  /** A keyspace as the VSchema describes it. */
  datatype Keyspace = Keyspace(name: string, sharded: bool)

  /** A column of a table; `typ` is its SQL type name ("" when unknown). */
  datatype Column = Column(name: string, invisible: bool, typ: string)

  /** The columns a vindex is defined on. */
  datatype ColumnVindex = ColumnVindex(columns: seq<string>)

  /** A table: its columns (authoritative when the list is complete), its
      vindexes, its type ("" for a normal table) and its keyspace. */
  datatype Table = Table(
    name: string,
    columns: seq<Column>,
    columnListAuthoritative: bool,
    columnVindexes: seq<ColumnVindex>,
    typ: string,
    keyspace: Keyspace)

  /** The table type of a reference table. */
  const TypeReference: string := "reference"
}
