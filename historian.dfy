// The schema-version historian of a tablet: a cache of table schemas, each
// tracked at the replication position where a DDL produced it, kept sorted by
// position so that the schema in force at any position can be looked up.
// Replication positions are modelled as integers; the schema_version table is
// an abstract source of already decoded rows.
module SchemaHistorian {
  import opened Wrappers

  /** A replication position; later positions compare greater. */
  type Position = int

  /** The schema of one table as the binlog streamer needs it. */
  datatype MinimalTable = MinimalTable(name: string, fields: seq<string>, pkColumns: seq<int>)

  /** The snapshot of every table at `pos`, reached by `ddl`, recorded at
      `timeUpdated` (Unix seconds). */
  datatype TrackedSchema = TrackedSchema(schema: map<string, MinimalTable>, pos: Position, ddl: string, timeUpdated: int)

  /** The two queries of the schema_version table: rows updated after a
      time (at tablet start, when a maximum age is set), or rows after an id. */
  datatype SchemaQuery = InitialVersions(updatedAfter: int) | NextVersions(afterId: int)

  /** A row of the schema_version table, decoded or not decodable. */
  datatype SchemaRow = Decoded(tracked: TrackedSchema, id: int) | BadRow(msg: string)

  /** The outcome of reading the table: no connection from the pool, a failed
      query, or the rows in id order. */
  datatype QueryOutcome = ConnFailed(msg: string) | QueryFailed(msg: string) | Rows(rows: seq<SchemaRow>)

  /** The outcome of decoding a GTID position string. */
  datatype Decoding = Decoded(pos: Position) | Undecodable(msg: string)

  const NanosPerSecond: int := 1_000_000_000

  // ---------------------------------------------------------------------------
  // Ordering and lookup

  ghost predicate SortedByPos(s: seq<TrackedSchema>)
  {
    forall i, j :: 0 <= i < j < |s| ==> s[i].pos <= s[j].pos
  }

  /** The table of that name in a snapshot, if it has one. */
  function TableIn(ts: TrackedSchema, tableName: string): Option<MinimalTable>
  {
    if tableName in ts.schema then Some(ts.schema[tableName]) else None
  }

  /** Binary search over `[i, j)` for the first entry at or after `pos`
      (the standard library search over "pos equals the entry, or is not at
      least it"). */
  function SearchPos(s: seq<TrackedSchema>, pos: Position, i: nat, j: nat): (idx: nat)
    requires i <= j <= |s|
    ensures i <= idx <= j
    decreases j - i
  {
    if i >= j then i
    else
      var h := (i + j) / 2;
      if !(pos == s[h].pos || !(pos >= s[h].pos)) then SearchPos(s, pos, h + 1, j) else SearchPos(s, pos, i, h)
  }

  /** On sorted entries whose part before `i` lies before `pos` and whose
      part from `j` on lies at or after it, the search splits all of them
      into those before `pos` and those at or after it. */
  lemma {:induction false} SearchPosSplits(s: seq<TrackedSchema>, pos: Position, i: nat, j: nat)
    requires i <= j <= |s| && SortedByPos(s)
    requires forall k :: 0 <= k < i ==> s[k].pos < pos
    requires forall k :: j <= k < |s| ==> pos <= s[k].pos
    ensures forall k :: 0 <= k < SearchPos(s, pos, i, j) ==> s[k].pos < pos
    ensures forall k :: SearchPos(s, pos, i, j) <= k < |s| ==> pos <= s[k].pos
    decreases j - i
  {
    if i < j {
      var h := (i + j) / 2;
      if !(pos == s[h].pos || !(pos >= s[h].pos)) {
        SearchPosSplits(s, pos, h + 1, j);
      } else {
        SearchPosSplits(s, pos, i, h);
      }
    }
  }

  /** The table as of `pos`: from the entry at `pos`, else from the greatest
      entry before it; nothing when `pos` is before the first entry or after
      the last. */
  function TableFromHistoryForPos(s: seq<TrackedSchema>, tableName: string, pos: Position): (r: Option<MinimalTable>)
    ensures s == [] ==> r.None?
    ensures r.Some? ==> exists k :: 0 <= k < |s| && r == TableIn(s[k], tableName)
  {
    var idx := SearchPos(s, pos, 0, |s|);
    if idx >= |s| || (idx == 0 && pos != s[idx].pos) then None
    else if pos == s[idx].pos then TableIn(s[idx], tableName)
    else TableIn(s[idx - 1], tableName)
  }

  /** A position equal to an entry's (its first entry at that position) gives
      that entry's table. */
  lemma LookupExact(s: seq<TrackedSchema>, tableName: string, k: nat)
    requires SortedByPos(s) && k < |s|
    requires k == 0 || s[k - 1].pos < s[k].pos
    ensures TableFromHistoryForPos(s, tableName, s[k].pos) == TableIn(s[k], tableName)
  {
    var idx := SearchPos(s, s[k].pos, 0, |s|);
    SearchPosSplits(s, s[k].pos, 0, |s|);
    assert idx == k;
  }

  /** A position strictly between two neighbouring entries gives the table
      of the earlier one. */
  lemma LookupBetween(s: seq<TrackedSchema>, tableName: string, k: nat, pos: Position)
    requires SortedByPos(s) && k + 1 < |s|
    requires s[k].pos < pos < s[k + 1].pos
    ensures TableFromHistoryForPos(s, tableName, pos) == TableIn(s[k], tableName)
  {
    var idx := SearchPos(s, pos, 0, |s|);
    SearchPosSplits(s, pos, 0, |s|);
    assert idx == k + 1;
  }

  /** A position before the first entry, or after every entry, is outside
      the cache and gives nothing. */
  lemma LookupOutside(s: seq<TrackedSchema>, tableName: string, pos: Position)
    requires SortedByPos(s)
    requires |s| == 0 || pos < s[0].pos || s[|s| - 1].pos < pos
    ensures TableFromHistoryForPos(s, tableName, pos) == None
  {
    var idx := SearchPos(s, pos, 0, |s|);
    SearchPosSplits(s, pos, 0, |s|);
    if |s| > 0 && pos < s[0].pos {
      assert idx == 0;
    }
  }

  // ---------------------------------------------------------------------------
  // Sorting

  /** Inserts `x` before the first entry at a later position. */
  function Insert(x: TrackedSchema, s: seq<TrackedSchema>): (r: seq<TrackedSchema>)
    ensures multiset(r) == multiset(s) + multiset{x}
  {
    if s == [] then [x]
    else if x.pos <= s[0].pos then [x] + s
    else
      assert s == [s[0]] + s[1..];
      [s[0]] + Insert(x, s[1..])
  }

  lemma {:induction false} InsertSorted(x: TrackedSchema, s: seq<TrackedSchema>)
    requires SortedByPos(s)
    ensures SortedByPos(Insert(x, s))
  {
    if s != [] && x.pos > s[0].pos {
      var rest := Insert(x, s[1..]);
      InsertSorted(x, s[1..]);
      forall k | 0 <= k < |rest| ensures s[0].pos <= rest[k].pos {
        assert rest[k] in multiset(rest);
        if rest[k] != x {
          assert rest[k] in multiset(s[1..]);
          var m :| 0 <= m < |s[1..]| && s[1..][m] == rest[k];
          assert s[m + 1] == rest[k];
        }
      }
    }
  }

  /** The entries in ascending position order. */
  function SortByPos(s: seq<TrackedSchema>): (r: seq<TrackedSchema>)
    ensures SortedByPos(r)
    ensures multiset(r) == multiset(s)
  {
    if s == [] then []
    else
      assert s == [s[0]] + s[1..];
      InsertSorted(s[0], SortByPos(s[1..]));
      Insert(s[0], SortByPos(s[1..]))
  }

  // ---------------------------------------------------------------------------
  // Age-based purge

  /** An entry is due for purging when it is older than the maximum age,
      measured in nanoseconds from `nowNanos`. */
  predicate Overdue(s: TrackedSchema, nowNanos: int, maxAgeSeconds: int)
  {
    nowNanos - s.timeUpdated * NanosPerSecond > maxAgeSeconds * NanosPerSecond
  }

  /** An entry survives a purge when it is younger than the maximum age. */
  predicate Young(s: TrackedSchema, nowNanos: int, maxAgeSeconds: int): (r: bool)
    ensures r ==> !Overdue(s, nowNanos, maxAgeSeconds)
  {
    nowNanos - s.timeUpdated * NanosPerSecond < maxAgeSeconds * NanosPerSecond
  }

  predicate AnyOverdue(s: seq<TrackedSchema>, nowNanos: int, maxAgeSeconds: int)
  {
    exists i :: 0 <= i < |s| && Overdue(s[i], nowNanos, maxAgeSeconds)
  }

  /** The young entries, in their order. */
  function YoungEntries(s: seq<TrackedSchema>, nowNanos: int, maxAgeSeconds: int): (r: seq<TrackedSchema>)
    ensures |r| <= |s|
    ensures forall i :: 0 <= i < |r| ==> Young(r[i], nowNanos, maxAgeSeconds)
  {
    if s == [] then []
    else
      var init := YoungEntries(s[..|s| - 1], nowNanos, maxAgeSeconds);
      if Young(s[|s| - 1], nowNanos, maxAgeSeconds) then init + [s[|s| - 1]] else init
  }

  /** The purge keeps exactly the young entries. */
  lemma {:induction false} YoungEntriesMembers(s: seq<TrackedSchema>, nowNanos: int, maxAgeSeconds: int, x: TrackedSchema)
    ensures x in YoungEntries(s, nowNanos, maxAgeSeconds) <==> x in s && Young(x, nowNanos, maxAgeSeconds)
  {
    if s != [] {
      var init := s[..|s| - 1];
      assert s == init + [s[|s| - 1]];
      YoungEntriesMembers(init, nowNanos, maxAgeSeconds, x);
    }
  }

  /** The purge keeps the young entries in order: each comes back as many
      times as it was there. */
  lemma {:induction false} YoungEntriesCount(s: seq<TrackedSchema>, nowNanos: int, maxAgeSeconds: int, x: TrackedSchema)
    requires Young(x, nowNanos, maxAgeSeconds)
    ensures multiset(YoungEntries(s, nowNanos, maxAgeSeconds))[x] == multiset(s)[x]
  {
    if s != [] {
      var init := s[..|s| - 1];
      assert s == init + [s[|s| - 1]];
      YoungEntriesCount(init, nowNanos, maxAgeSeconds, x);
    }
  }

  /** An entry exactly the maximum age old does not start a purge, but is
      dropped by one that something older started. */
  lemma BoundaryEntry(nowNanos: int, maxAgeSeconds: int, edge: TrackedSchema, stale: TrackedSchema)
    requires nowNanos - edge.timeUpdated * NanosPerSecond == maxAgeSeconds * NanosPerSecond
    requires Overdue(stale, nowNanos, maxAgeSeconds)
    ensures !AnyOverdue([edge], nowNanos, maxAgeSeconds)
    ensures YoungEntries([edge, stale], nowNanos, maxAgeSeconds) == []
  {
    assert [edge, stale][..1] == [edge];
    assert [edge][..0] == [];
    assert !Young(edge, nowNanos, maxAgeSeconds);
    assert YoungEntries([edge], nowNanos, maxAgeSeconds) == [];
  }

  // ---------------------------------------------------------------------------
  // Loading

  /** The query the historian issues for a given watermark. */
  function QueryFor(lastID: int, maxAgeSeconds: int, nowNanos: int): (q: SchemaQuery)
    ensures lastID == 0 && maxAgeSeconds > 0 ==> q.InitialVersions? && q.updatedAfter == nowNanos / NanosPerSecond - maxAgeSeconds
    ensures !(lastID == 0 && maxAgeSeconds > 0) ==> q == NextVersions(lastID)
  {
    if lastID == 0 && maxAgeSeconds > 0 then InitialVersions(nowNanos / NanosPerSecond - maxAgeSeconds)
    else NextVersions(lastID)
  }

  /** The number of leading rows that decode. */
  function DecodedPrefix(rows: seq<SchemaRow>): (k: nat)
    ensures k <= |rows|
    ensures forall i :: 0 <= i < k ==> rows[i].Decoded?
    ensures k < |rows| ==> rows[k].BadRow?
  {
    if rows == [] || rows[0].BadRow? then 0 else 1 + DecodedPrefix(rows[1..])
  }

  /** The schemas of the first `k` rows, which decode. */
  function RowSchemas(rows: seq<SchemaRow>, k: nat): seq<TrackedSchema>
    requires k <= |rows| && forall i :: 0 <= i < k ==> rows[i].Decoded?
  {
    seq(k, i requires 0 <= i < k => rows[i].tracked)
  }

  /** What a load from the database leaves behind, from the cache `before`
      and the watermark `beforeID`: on a connection error that error and no
      change; on a failed query no error and no change; otherwise the rows
      that decode are appended in order and move the watermark to the last
      of them, a row that does not decode stops the load with its error, and
      after a complete load the cache is purged (when a maximum age is set
      and a row was ever loaded) and sorted. */
  ghost predicate Loaded(before: seq<TrackedSchema>, beforeID: int, schemaMaxAgeSeconds: int,
                         db: SchemaQuery -> QueryOutcome, nowNanos: int,
                         schemas: seq<TrackedSchema>, lastID: int, err: Option<string>)
  {
    var q := QueryFor(beforeID, schemaMaxAgeSeconds, nowNanos);
    && (db(q).ConnFailed? ==> err == Some(db(q).msg) && schemas == before && lastID == beforeID)
    && (db(q).QueryFailed? ==> err.None? && schemas == before && lastID == beforeID)
    && (db(q).Rows? ==>
          var rows := db(q).rows;
          var k := DecodedPrefix(rows);
          var appended := before + RowSchemas(rows, k);
          && lastID == (if k == 0 then beforeID else rows[k - 1].id)
          && (k < |rows| ==> err == Some(rows[k].msg) && schemas == appended)
          && (k == |rows| ==>
                && err.None?
                && SortedByPos(schemas)
                && multiset(schemas) ==
                     multiset(if lastID != 0 && schemaMaxAgeSeconds > 0 && AnyOverdue(appended, nowNanos, schemaMaxAgeSeconds)
                              then YoungEntries(appended, nowNanos, schemaMaxAgeSeconds) else appended)))
  }

  class Historian {
    var lastID: int
    var schemas: seq<TrackedSchema>
    var enabled: bool
    var isOpen: bool
    const schemaMaxAgeSeconds: int

    constructor (enabled: bool, schemaMaxAgeSeconds: int)
      ensures this.enabled == enabled && this.schemaMaxAgeSeconds == schemaMaxAgeSeconds
      ensures lastID == 0 && schemas == [] && !isOpen
    {
      this.enabled := enabled;
      this.schemaMaxAgeSeconds := schemaMaxAgeSeconds;
      lastID := 0;
      schemas := [];
      isOpen := false;
    }

    /** Sorts the cache in ascending position order. */
    method SortSchemas()
      modifies this
      ensures SortedByPos(schemas) && multiset(schemas) == multiset(old(schemas))
      ensures lastID == old(lastID) && enabled == old(enabled) && isOpen == old(isOpen)
    {
      schemas := SortByPos(schemas);
    }

    /** Drops the entries older than the maximum age, but only when at least
        one entry is overdue. */
    method PurgeOldSchemas(nowNanos: int)
      modifies this
      ensures schemas == if AnyOverdue(old(schemas), nowNanos, schemaMaxAgeSeconds)
                         then YoungEntries(old(schemas), nowNanos, schemaMaxAgeSeconds) else old(schemas)
      ensures lastID == old(lastID) && enabled == old(enabled) && isOpen == old(isOpen)
    {
      var shouldPurge := false;
      var i := 0;
      while i < |schemas|
        invariant 0 <= i <= |schemas|
        invariant forall k :: 0 <= k < i ==> !Overdue(schemas[k], nowNanos, schemaMaxAgeSeconds)
      {
        if Overdue(schemas[i], nowNanos, schemaMaxAgeSeconds) {
          shouldPurge := true;
          break;
        }
        i := i + 1;
      }
      if !shouldPurge {
        return;
      }
      var filtered: seq<TrackedSchema> := [];
      var j := 0;
      while j < |schemas|
        invariant 0 <= j <= |schemas|
        invariant filtered == YoungEntries(schemas[..j], nowNanos, schemaMaxAgeSeconds)
      {
        assert schemas[..j + 1][..j] == schemas[..j];
        if Young(schemas[j], nowNanos, schemaMaxAgeSeconds) {
          filtered := filtered + [schemas[j]];
        }
        j := j + 1;
      }
      assert schemas[..j] == schemas;
      schemas := filtered;
    }

    /** Reads the rows the cache does not have yet and appends them in order,
        moving the `lastID` watermark along; a row that does not decode stops
        the load with its error and leaves the rows before it appended. After
        a complete load the cache is purged (when a maximum age is set and a
        row was ever loaded) and sorted. A failed query is not an error and
        changes nothing. `db` answers the query, which is returned. */
    method LoadFromDB(db: SchemaQuery -> QueryOutcome, nowNanos: int) returns (q: SchemaQuery, err: Option<string>)
      modifies this
      ensures q == QueryFor(old(lastID), schemaMaxAgeSeconds, nowNanos)
      ensures enabled == old(enabled) && isOpen == old(isOpen)
      ensures Loaded(old(schemas), old(lastID), schemaMaxAgeSeconds, db, nowNanos, schemas, lastID, err)
    {
      q := QueryFor(lastID, schemaMaxAgeSeconds, nowNanos);
      var outcome := db(q);
      if outcome.ConnFailed? {
        return q, Some(outcome.msg);
      }
      if outcome.QueryFailed? {
        return q, None;
      }
      var rows := outcome.rows;
      ghost var k := DecodedPrefix(rows);
      var n := 0;
      while n < |rows|
        invariant 0 <= n <= k
        invariant schemas == old(schemas) + RowSchemas(rows, n)
        invariant lastID == if n == 0 then old(lastID) else rows[n - 1].id
        invariant enabled == old(enabled) && isOpen == old(isOpen)
      {
        if rows[n].BadRow? {
          return q, Some(rows[n].msg);
        }
        assert RowSchemas(rows, n + 1) == RowSchemas(rows, n) + [rows[n].tracked];
        schemas := schemas + [rows[n].tracked];
        lastID := rows[n].id;
        n := n + 1;
      }
      if lastID != 0 && schemaMaxAgeSeconds > 0 {
        PurgeOldSchemas(nowNanos);
      }
      SortSchemas();
      err := None;
    }

    /** Loads the cache when enabled and not yet open; it is open only after
        a successful load. */
    method Open(db: SchemaQuery -> QueryOutcome, nowNanos: int) returns (err: Option<string>)
      modifies this
      ensures !old(enabled) || old(isOpen) ==>
                err.None? && schemas == old(schemas) && lastID == old(lastID) && isOpen == old(isOpen)
      ensures old(enabled) && !old(isOpen) ==>
                && Loaded(old(schemas), old(lastID), schemaMaxAgeSeconds, db, nowNanos, schemas, lastID, err)
                && isOpen == err.None?
      ensures enabled == old(enabled)
    {
      if !enabled {
        return None;
      }
      if isOpen {
        return None;
      }
      var q;
      q, err := LoadFromDB(db, nowNanos);
      if err.Some? {
        return err;
      }
      isOpen := true;
    }

    /** Empties the cache and marks it closed; a closed historian is left as
        it is. The watermark is kept. */
    method Close()
      modifies this
      ensures old(isOpen) ==> schemas == [] && !isOpen
      ensures !old(isOpen) ==> schemas == old(schemas) && isOpen == old(isOpen)
      ensures lastID == old(lastID) && enabled == old(enabled)
    {
      if !isOpen {
        return;
      }
      schemas := [];
      isOpen := false;
    }

    /** Sets the enabled flag, then opens or closes accordingly. */
    method Enable(enable: bool, db: SchemaQuery -> QueryOutcome, nowNanos: int) returns (err: Option<string>)
      modifies this
      ensures enabled == enable
      ensures !enable ==> err.None? && !isOpen && (old(isOpen) ==> schemas == [])
      ensures enable && old(isOpen) ==> err.None? && isOpen && schemas == old(schemas)
      ensures !enable || old(isOpen) ==> lastID == old(lastID)
      ensures !enable && !old(isOpen) ==> schemas == old(schemas)
      ensures enable && !old(isOpen) ==>
                && Loaded(old(schemas), old(lastID), schemaMaxAgeSeconds, db, nowNanos, schemas, lastID, err)
                && isOpen == err.None?
    {
      enabled := enable;
      if enable {
        err := Open(db, nowNanos);
        return;
      }
      Close();
      err := None;
    }

    /** A version event reloads newer rows when the historian is open. */
    method RegisterVersionEvent(db: SchemaQuery -> QueryOutcome, nowNanos: int) returns (err: Option<string>)
      modifies this
      ensures !old(isOpen) ==> err.None? && schemas == old(schemas) && lastID == old(lastID)
      ensures old(isOpen) ==> Loaded(old(schemas), old(lastID), schemaMaxAgeSeconds, db, nowNanos, schemas, lastID, err)
      ensures isOpen == old(isOpen) && enabled == old(enabled)
    {
      if !isOpen {
        return None;
      }
      var q;
      q, err := LoadFromDB(db, nowNanos);
    }

    /** The best-known schema of `tableName` at the GTID `gtid`: nothing when
        closed or for an empty GTID, the decoding error for a bad GTID, and
        otherwise the cache lookup. */
    method GetTableForPos(tableName: string, gtid: string, decode: string -> Decoding)
      returns (t: Option<MinimalTable>, err: Option<string>)
      ensures !isOpen || gtid == "" ==> t.None? && err.None?
      ensures isOpen && gtid != "" && decode(gtid).Undecodable? ==> t.None? && err == Some(decode(gtid).msg)
      ensures isOpen && gtid != "" && decode(gtid).Decoded? ==>
                err.None? && t == TableFromHistoryForPos(schemas, tableName, decode(gtid).pos)
    {
      if !isOpen {
        return None, None;
      }
      if gtid == "" {
        return None, None;
      }
      var pos := decode(gtid);
      if pos.Undecodable? {
        return None, Some(pos.msg);
      }
      t := None;
      if |schemas| > 0 {
        t := TableFromHistoryForPos(schemas, tableName, pos.pos);
      }
      assert |schemas| == 0 ==> SearchPos(schemas, pos.pos, 0, 0) == 0;
      err := None;
    }
  }

  /** Opening a fresh historian loads the one row of the table and moves
      the watermark to its id; a version event then loads only the newer
      row and keeps both. */
  method OpenThenVersionEvent(t1: TrackedSchema, t2: TrackedSchema) returns (h: Historian)
    ensures h.isOpen && h.lastID == 9 && multiset(h.schemas) == multiset{t1, t2}
  {
    h := new Historian(true, 0);
    var db := (q: SchemaQuery) =>
      if q == NextVersions(0) then Rows([SchemaRow.Decoded(t1, 7)])
      else if q == NextVersions(7) then Rows([SchemaRow.Decoded(t2, 9)])
      else Rows([]);
    var err := h.Open(db, 0);
    OneRowLoaded([], 0, db, t1, 7, h.schemas, h.lastID, err);
    err := h.RegisterVersionEvent(db, 0);
    OneRowLoaded([t1], 7, db, t2, 9, h.schemas, h.lastID, err);
  }

  /** Without a maximum age, a load that reads one decodable row appends it
      and moves the watermark to its id. */
  lemma OneRowLoaded(before: seq<TrackedSchema>, beforeID: int, db: SchemaQuery -> QueryOutcome,
                     t: TrackedSchema, id: int, schemas: seq<TrackedSchema>, lastID: int, err: Option<string>)
    requires db(NextVersions(beforeID)) == Rows([SchemaRow.Decoded(t, id)])
    requires Loaded(before, beforeID, 0, db, 0, schemas, lastID, err)
    ensures err.None? && lastID == id && multiset(schemas) == multiset(before) + multiset{t}
  {
    var rows := [SchemaRow.Decoded(t, id)];
    assert DecodedPrefix(rows) == 1;
    assert RowSchemas(rows, 1) == [t];
  }
}
