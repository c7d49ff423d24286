// A table of a query as the semantic analyser sees it: the FROM-clause
// expression that names it and the VSchema table it resolves to, if any.
// Column resolution, dependency classification and the shortcut rule.
module Semantics {
  import opened Vindexes
  import opened Strs
  import opened Wrappers

  /** How the table appears in the FROM clause: a (possibly qualified) name,
      or anything else (a derived table). */
  datatype TableExpr = NamedTable(qualifier: string, name: string) | OtherExpr

  /** A qualified table name; an empty qualifier is unqualified. */
  datatype TableName = TableName(qualifier: string, name: string)

  datatype RealTable = RealTable(dbName: string, tableName: string, astExpr: TableExpr, table: Option<Table>)

  /** A column as the analyser reports it; a column known only from a
      vindex has no type (""). */
  datatype ColumnInfo = ColumnInfo(name: string, typ: string, invisible: bool)

  /** Where a column reference may come from: this table for sure, certainly
      not this table, or possibly this table. */
  datatype Dependency = Certain(typ: string) | Nothing | Uncertain

  datatype ShortCut = CannotShortCut | CanShortCut | DependsOnKeyspace

  function InfoOf(c: Column): ColumnInfo
  {
    ColumnInfo(c.name, c.typ, c.invisible)
  }

  function SkipColumn(c: Column, ignoreInvisible: bool): bool
  {
    c.invisible && ignoreInvisible
  }

  /** The reported table columns, in order. */
  function TableColumns(cols: seq<Column>, ignoreInvisible: bool): seq<ColumnInfo>
  {
    if cols == [] then []
    else
      var init := TableColumns(cols[..|cols| - 1], ignoreInvisible);
      var c := cols[|cols| - 1];
      if SkipColumn(c, ignoreInvisible) then init else init + [InfoOf(c)]
  }

  /** The names of the reported table columns. */
  function TableColumnNames(cols: seq<Column>, ignoreInvisible: bool): set<string>
  {
    if cols == [] then {}
    else
      var c := cols[|cols| - 1];
      TableColumnNames(cols[..|cols| - 1], ignoreInvisible) + (if SkipColumn(c, ignoreInvisible) then {} else {c.name})
  }

  /** The columns of all vindexes, in order. */
  function VindexColumns(vs: seq<ColumnVindex>): seq<string>
  {
    if vs == [] then [] else VindexColumns(vs[..|vs| - 1]) + vs[|vs| - 1].columns
  }

  /** The first occurrences of the names that are not in `seen`. */
  function NewNames(s: seq<string>, seen: set<string>): seq<string>
  {
    if s == [] then []
    else
      var init := NewNames(s[..|s| - 1], seen);
      var x := s[|s| - 1];
      if x in seen || x in s[..|s| - 1] then init else init + [x]
  }

  function ExtraColumns(names: seq<string>): (r: seq<ColumnInfo>)
    ensures |r| == |names|
    ensures forall k :: 0 <= k < |names| ==> r[k] == ColumnInfo(names[k], "", false)
  {
    seq(|names|, k requires 0 <= k < |names| => ColumnInfo(names[k], "", false))
  }

  /** The columns the table exposes: nothing without a VSchema table; its
      columns (without the invisible ones when asked); and, unless the column
      list is authoritative, the vindex columns not already named. */
  ghost function Columns(rt: RealTable, ignoreInvisible: bool): seq<ColumnInfo>
  {
    match rt.table
    case None => []
    case Some(t) =>
      TableColumns(t.columns, ignoreInvisible) +
      (if t.columnListAuthoritative then []
       else ExtraColumns(NewNames(VindexColumns(t.columnVindexes), TableColumnNames(t.columns, ignoreInvisible))))
  }

  method GetColumns(rt: RealTable, ignoreInvisible: bool) returns (cols: seq<ColumnInfo>)
    ensures cols == Columns(rt, ignoreInvisible)
  {
    if rt.table.None? {
      return [];
    }
    var t := rt.table.value;
    var nameMap;
    cols, nameMap := ReportTableColumns(t.columns, ignoreInvisible);
    if t.columnListAuthoritative {
      return;
    }
    cols, nameMap := AppendVindexColumns(t.columnVindexes, cols, nameMap);
  }

  /** The table-column loop of `GetColumns`, with the names it records. */
  method ReportTableColumns(columns: seq<Column>, ignoreInvisible: bool) returns (cols: seq<ColumnInfo>, nameMap: set<string>)
    ensures cols == TableColumns(columns, ignoreInvisible)
    ensures nameMap == TableColumnNames(columns, ignoreInvisible)
  {
    nameMap := {};
    cols := [];
    var i := 0;
    while i < |columns|
      invariant 0 <= i <= |columns|
      invariant cols == TableColumns(columns[..i], ignoreInvisible)
      invariant nameMap == TableColumnNames(columns[..i], ignoreInvisible)
    {
      var col := columns[i];
      assert columns[..i + 1][..i] == columns[..i];
      if col.invisible && ignoreInvisible {
        i := i + 1;
        continue;
      }
      cols := cols + [InfoOf(col)];
      nameMap := nameMap + {col.name};
      i := i + 1;
    }
    assert columns[..i] == columns;
  }

  /** The vindex loop of `GetColumns`: appends the vindex columns whose
      names are not recorded yet. */
  method AppendVindexColumns(vs: seq<ColumnVindex>, base: seq<ColumnInfo>, seen: set<string>)
    returns (cols: seq<ColumnInfo>, nameMap: set<string>)
    ensures cols == base + ExtraColumns(NewNames(VindexColumns(vs), seen))
  {
    cols := base;
    nameMap := seen;
    var v := 0;
    while v < |vs|
      invariant 0 <= v <= |vs|
      invariant cols == base + ExtraColumns(NewNames(VindexColumns(vs[..v]), seen))
      invariant nameMap == seen + Elements(VindexColumns(vs[..v]))
    {
      assert vs[..v + 1][..v] == vs[..v];
      cols, nameMap := AppendVindex(vs[v].columns, VindexColumns(vs[..v]), base, seen, cols, nameMap);
      v := v + 1;
    }
    assert vs[..v] == vs;
  }

  /** The loop over one vindex's columns, after the columns `done`. */
  method AppendVindex(columns: seq<string>, ghost done: seq<string>, ghost base: seq<ColumnInfo>, ghost seen: set<string>,
                      cols0: seq<ColumnInfo>, nameMap0: set<string>)
    returns (cols: seq<ColumnInfo>, nameMap: set<string>)
    requires cols0 == base + ExtraColumns(NewNames(done, seen))
    requires nameMap0 == seen + Elements(done)
    ensures cols == base + ExtraColumns(NewNames(done + columns, seen))
    ensures nameMap == seen + Elements(done + columns)
  {
    cols, nameMap := cols0, nameMap0;
    var j := 0;
    assert done + columns[..0] == done;
    while j < |columns|
      invariant 0 <= j <= |columns|
      invariant cols == base + ExtraColumns(NewNames(done + columns[..j], seen))
      invariant nameMap == seen + Elements(done + columns[..j])
    {
      var name := columns[j];
      ghost var flat := done + columns[..j];
      assert (done + columns[..j + 1])[..|flat|] == flat;
      assert done + columns[..j + 1] == flat + [name];
      ElementsOfSnoc(flat, name);
      if name in nameMap {
        j := j + 1;
        continue;
      }
      assert ExtraColumns(NewNames(flat, seen) + [name]) == ExtraColumns(NewNames(flat, seen)) + [ColumnInfo(name, "", false)];
      cols := cols + [ColumnInfo(name, "", false)];
      nameMap := nameMap + {name};
      j := j + 1;
    }
    assert columns[..j] == columns;
  }

  function Elements(s: seq<string>): set<string>
  {
    set x | x in s
  }

  lemma ElementsOfSnoc(s: seq<string>, x: string)
    ensures Elements(s + [x]) == Elements(s) + {x}
  {
  }

  /** The vindex columns added are the names used by some vindex and by no
      reported table column. */
  lemma {:induction false} NewNamesMembers(s: seq<string>, seen: set<string>, x: string)
    ensures x in NewNames(s, seen) <==> x in s && x !in seen
  {
    if s != [] {
      var init := s[..|s| - 1];
      assert s == init + [s[|s| - 1]];
      NewNamesMembers(init, seen, x);
    }
  }

  /** No vindex column is added twice. */
  lemma {:induction false} NewNamesDistinct(s: seq<string>, seen: set<string>)
    ensures forall i, j :: 0 <= i < j < |NewNames(s, seen)| ==> NewNames(s, seen)[i] != NewNames(s, seen)[j]
  {
    if s != [] {
      var init := s[..|s| - 1];
      NewNamesDistinct(init, seen);
      NewNamesMembers(init, seen, s[|s| - 1]);
    }
  }

  /** A column is reported exactly when the table has it, unless it is
      invisible and invisible columns are ignored. */
  lemma {:induction false} TableColumnsMembers(cols: seq<Column>, ignoreInvisible: bool, c: Column)
    ensures InfoOf(c) in TableColumns(cols, ignoreInvisible) <==> c in cols && !SkipColumn(c, ignoreInvisible)
  {
    if cols != [] {
      var init := cols[..|cols| - 1];
      assert cols == init + [cols[|cols| - 1]];
      TableColumnsMembers(init, ignoreInvisible, c);
    }
  }

  /** Without ignoring invisible columns, every table column is reported,
      in order. */
  lemma {:induction false} AllTableColumns(cols: seq<Column>)
    ensures |TableColumns(cols, false)| == |cols|
    ensures forall k :: 0 <= k < |cols| ==> TableColumns(cols, false)[k] == InfoOf(cols[k])
  {
    if cols != [] {
      AllTableColumns(cols[..|cols| - 1]);
    }
  }

  /** An authoritative table reports exactly its own columns, in order. */
  lemma AuthoritativeColumnsExact(rt: RealTable)
    requires Authoritative(rt)
    ensures |Columns(rt, false)| == |rt.table.value.columns|
    ensures forall k :: 0 <= k < |Columns(rt, false)| ==> Columns(rt, false)[k] == InfoOf(rt.table.value.columns[k])
  {
    AllTableColumns(rt.table.value.columns);
  }

  /** A non-authoritative table reports its table columns first, then each
      vindex column whose name is not already reported, once. */
  lemma VindexColumnsAppended(rt: RealTable, ignoreInvisible: bool, name: string)
    requires rt.table.Some? && !rt.table.value.columnListAuthoritative
    ensures var t := rt.table.value;
            var base := TableColumns(t.columns, ignoreInvisible);
            && Columns(rt, ignoreInvisible)[..|base|] == base
            && (ColumnInfo(name, "", false) in Columns(rt, ignoreInvisible)[|base|..] <==>
                  name in VindexColumns(t.columnVindexes) && name !in TableColumnNames(t.columns, ignoreInvisible))
  {
    var t := rt.table.value;
    var names := NewNames(VindexColumns(t.columnVindexes), TableColumnNames(t.columns, ignoreInvisible));
    NewNamesMembers(VindexColumns(t.columnVindexes), TableColumnNames(t.columns, ignoreInvisible), name);
    var base := TableColumns(t.columns, ignoreInvisible);
    assert Columns(rt, ignoreInvisible)[|base|..] == ExtraColumns(names);
    if ColumnInfo(name, "", false) in ExtraColumns(names) {
      var k :| 0 <= k < |names| && ExtraColumns(names)[k] == ColumnInfo(name, "", false);
    }
    if name in names {
      var k :| 0 <= k < |names| && names[k] == name;
      assert ExtraColumns(names)[k] == ColumnInfo(name, "", false);
    }
  }

  /** Whether the table's column list is complete. */
  predicate Authoritative(rt: RealTable)
  {
    rt.table.Some? && rt.table.value.columnListAuthoritative
  }

  /** Whether `name` refers to this table: an empty qualifier or this
      database, and this table's name. */
  predicate Matches(rt: RealTable, name: TableName)
  {
    (name.qualifier == "" || name.qualifier == rt.dbName) && rt.tableName == name.name
  }

  /** A name matches without a qualifier or with the table's own database,
      and only with the table's own name. */
  lemma MatchesOwnName(rt: RealTable, other: TableName)
    ensures Matches(rt, TableName("", rt.tableName)) && Matches(rt, TableName(rt.dbName, rt.tableName))
    ensures other.name != rt.tableName ==> !Matches(rt, other)
    ensures other.qualifier != "" && other.qualifier != rt.dbName ==> !Matches(rt, other)
  {
  }

  /** The index of the first reported column equal to `colName` up to case. */
  function FirstFold(cols: seq<ColumnInfo>, colName: string): (k: nat)
    ensures k <= |cols|
    ensures forall m :: 0 <= m < k ==> !EqualFold(cols[m].name, colName)
    ensures k < |cols| ==> EqualFold(cols[k].name, colName)
  {
    if cols == [] || EqualFold(cols[0].name, colName) then 0 else 1 + FirstFold(cols[1..], colName)
  }

  /** Classifies a column reference: certain, with that column's type, when
      a reported column matches its name up to case (the first such);
      otherwise nothing for an authoritative table and uncertain for any
      other. */
  method Dependencies(rt: RealTable, colName: string) returns (d: Dependency)
    ensures var cols := Columns(rt, false);
            var k := FirstFold(cols, colName);
            && (k < |cols| ==> d == Certain(cols[k].typ))
            && (k == |cols| ==> d == if Authoritative(rt) then Nothing else Uncertain)
  {
    var cols := GetColumns(rt, false);
    var i := 0;
    while i < |cols|
      invariant 0 <= i <= FirstFold(cols, colName)
    {
      if EqualFold(cols[i].name, colName) {
        return Certain(cols[i].typ);
      }
      i := i + 1;
    }
    if Authoritative(rt) {
      return Nothing;
    }
    return Uncertain;
  }

  /** Whether the table lets a query be sent straight to an unsharded
      keyspace: a reference table can; a table of any other explicit type,
      or one without a VSchema table, cannot; a plain table can when the
      FROM clause names it by its own name, depending on its keyspace. */
  function ShortCutFor(rt: RealTable): (r: ShortCut)
    ensures r == CanShortCut <==> rt.table.Some? && rt.table.value.typ == TypeReference
    ensures r == DependsOnKeyspace <==>
              && rt.table.Some? && rt.table.value.typ == ""
              && rt.astExpr.NamedTable? && rt.astExpr.name == rt.table.value.name
  {
    match rt.table
    case None => CannotShortCut
    case Some(t) =>
      if t.typ != "" then (if t.typ == TypeReference then CanShortCut else CannotShortCut)
      else if !rt.astExpr.NamedTable? || rt.astExpr.name != t.name then CannotShortCut
      else DependsOnKeyspace
  }
}
