// The schema information schemadiff hands to semantic analysis: a table map
// built from declarative CREATE TABLE statements, in one unsharded keyspace.
module SchemaDiff {
  import opened Wrappers
  import opened TopoData
  import opened Vindexes
  import Semantics

  /** The keyspace every declared table belongs to; its name has no
      meaning. */
  const SemanticKeyspace: Keyspace := Keyspace("ks", false)

  /** The foreign key modes of a VSchema keyspace. */
  datatype KeyspaceForeignKeyMode = Unspecified | Disallow | Unmanaged | Managed

  /** What a table lookup answers: the table if declared; never a vindex,
      a keyspace, a tablet type, a destination or an error. */
  datatype TableLookup = TableLookup(
    table: Option<Table>,
    vindexFound: bool,
    keyspace: string,
    tabletType: TabletType,
    destinationFound: bool,
    err: Option<string>)

  /** A declared table: no columns yet, authoritative, in the semantic
      keyspace. */
  function DeclaredTable(tableName: string): (t: Table)
    ensures t.name == tableName && t.columns == [] && t.columnListAuthoritative
    ensures t.keyspace == SemanticKeyspace
  {
    Table(tableName, [], true, [], "", SemanticKeyspace)
  }

  /** A declared column: visible, with no type. */
  function DeclaredColumn(columnName: string): (c: Column)
    ensures c.name == columnName && !c.invisible && c.typ == ""
  {
    Column(columnName, false, "")
  }

  class DeclarativeSchemaInformation {
    var tables: map<string, Table>

    constructor ()
      ensures tables == map[]
    {
      tables := map[];
    }

    /** The table declared under the table name's own name (its qualifier
        is ignored). */
    function FindTableOrVindex(tableName: Semantics.TableName): (r: TableLookup)
      reads this
      ensures tableName.name in tables ==> r.table == Some(tables[tableName.name])
      ensures tableName.name !in tables ==> r.table == None
      ensures !r.vindexFound && r.keyspace == "" && r.tabletType == Unknown && !r.destinationFound && r.err == None
    {
      var t := if tableName.name in tables then Some(tables[tableName.name]) else None;
      TableLookup(t, false, "", Unknown, false, None)
    }

    /** Foreign keys are never managed by the declared keyspace. */
    function ForeignKeyMode(keyspace: string): (r: (KeyspaceForeignKeyMode, Option<string>))
      ensures r == (Unmanaged, None)
    {
      (Unmanaged, None)
    }

    /** No keyspace is in error. */
    function KeyspaceError(keyspace: string): (r: Option<string>)
      ensures r == None
    {
      None
    }

    /** Declares a table with no columns, replacing any table of that
        name. */
    method AddTable(tableName: string)
      modifies this
      ensures tables == old(tables)[tableName := DeclaredTable(tableName)]
    {
      tables := tables[tableName := DeclaredTable(tableName)];
    }

    /** Adds a column at the end of an existing table. */
    method AddColumn(tableName: string, columnName: string)
      requires tableName in tables
      modifies this
      ensures tableName in tables
      ensures tables == old(tables)[tableName := old(tables)[tableName].(columns := old(tables)[tableName].columns + [DeclaredColumn(columnName)])]
    {
      var t := tables[tableName];
      tables := tables[tableName := t.(columns := t.columns + [DeclaredColumn(columnName)])];
    }
  }

  /** The columns of a declared table after `AddColumn` for each of
      `names`, in order. */
  function DeclaredColumns(names: seq<string>): seq<Column>
  {
    if names == [] then [] else DeclaredColumns(names[..|names| - 1]) + [DeclaredColumn(names[|names| - 1])]
  }

  /** Those are exactly the named columns, visible and untyped, in order. */
  lemma {:induction false} DeclaredColumnsExact(names: seq<string>)
    ensures |DeclaredColumns(names)| == |names|
    ensures forall k :: 0 <= k < |names| ==> DeclaredColumns(names)[k] == Column(names[k], false, "")
  {
    if names != [] {
      DeclaredColumnsExact(names[..|names| - 1]);
    }
  }

  /** A declared table is seen by the analyser as authoritative, exposing
      only its declared columns, which cannot be shortcut past their
      keyspace unless named directly. */
  lemma DeclaredTableResolution(dbName: string, tableName: string, names: seq<string>)
    ensures var t := DeclaredTable(tableName).(columns := DeclaredColumns(names));
            var rt := Semantics.RealTable(dbName, tableName, Semantics.NamedTable("", tableName), Some(t));
            && Semantics.Authoritative(rt)
            && |Semantics.Columns(rt, false)| == |names|
            && (forall k :: 0 <= k < |names| ==> Semantics.Columns(rt, false)[k] == Semantics.ColumnInfo(names[k], "", false))
            && Semantics.ShortCutFor(rt) == Semantics.DependsOnKeyspace
  {
    var t := DeclaredTable(tableName).(columns := DeclaredColumns(names));
    var rt := Semantics.RealTable(dbName, tableName, Semantics.NamedTable("", tableName), Some(t));
    DeclaredColumnsExact(names);
    Semantics.AuthoritativeColumnsExact(rt);
  }
}
