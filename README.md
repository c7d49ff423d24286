# Vitess core, modelled in Dafny

This project models nine pieces of Vitess.

- **Topology locks.** An operation keeps its own table of the resources it
  has locked. Locking a resource it already holds is refused. Releasing a
  lock records the action's final status on the lock record. The caller's
  error is kept in preference to the unlock error.
- **Serving-target discovery.** Finds every (cell, keyspace, shard,
  tablet type) the serving graph offers for the requested tablet types.
- **Keyspace-event decision rules.** Explain a primary's unavailability as
  an in-flight resharding or as a primary that stopped serving.
- **Schema historian.** A tablet's cache of schema versions, sorted by
  replication position, with age-based purging and point-in-time lookup.
- **Real-table column resolution.** Used by the query planner's semantic
  analyser.
- **Batched streaming** of a query result to a callback.
- **JSON value helpers.** Depth, length and constructors.
- **The vtctld action repository.**
- **Schemadiff's declarative schema information.**

Each Go file becomes one module. The shared value types live in `Wrappers`
(byte, `Option`), `TopoData` (targets, key ranges, serving keyspaces,
topology errors), `Vindexes` (VSchema tables) and `Strs` (ASCII case
folding).

Code that changes state in place becomes a `class`. This applies to the
global cell's lock table, the lock record, the per-operation lock table,
the historian, the pooled connection, the action repository and the
declarative schema information. Loops become `while` loops proved against
recursive specification functions. Pure decision rules become functions
and lemmas.

Inputs the Go code reads from the outside world are parameters of the
model. These are: remote failures of the topology server, the serving
graph, the schema_version table, the clock (nanoseconds since the epoch),
the GTID decoder, query callbacks, the ACL check, and the results of the
registered actions.

## Model

| member | source | states |
|---|---|---|
| TopoLocks.FinalStatus | go/vt/topo/locks.go:166-173 | a lock released after a failed action gets "Error: " followed by the error text, and after a successful one "Done"; never "Running" again |
| TopoLocks.GlobalCell.Lock | go/vt/topo/locks.go:146-147 | a blocking lock on a free path grants a fresh descriptor and records it; on a held path it ends in the lock timeout; a remote fault is returned with nothing changed |
| TopoLocks.GlobalCell.TryLock | go/vt/topo/locks.go:148-149 | a non-blocking lock on a held path fails with NodeExists at once; otherwise as a blocking lock |
| TopoLocks.GlobalCell.Unlock | go/vt/topo/locks.go:174 | unlocking through a live descriptor frees exactly that path; a stale descriptor gives NoNode; a fault leaves the table unchanged |
| TopoLocks.GlobalCell.Check | go/vt/topo/locks.go:246-247 | a descriptor checks out exactly when it still holds its path |
| TopoLocks.Lock.constructor | go/vt/topo/locks.go:74-81 | a new lock record carries its action and the status "Running" |
| TopoLocks.Lock.LockRemote | go/vt/topo/locks.go:132-150 | locking goes through the blocking or the non-blocking primitive, as asked, and changes nothing on the record |
| TopoLocks.Lock.UnlockRemote | go/vt/topo/locks.go:153-175 | the record's status becomes the final status before the unlock, whose error is returned |
| TopoLocks.LocksInfo.constructor | go/vt/topo/locks.go:178-184 | an operation without a lock table starts with an empty one |
| TopoLocks.InternalLock | go/vt/topo/locks.go:177-202 | a resource already in the operation's table is refused as "already held" without contacting the server; a lock failure changes no table; success adds exactly that resource, with its descriptor and a fresh running record, and locks exactly its path |
| TopoLocks.Release | go/vt/topo/locks.go:203-227 | a second release leaves the caller's error or reports "multiple times"; otherwise the record gets its final status, the caller's error wins over the unlock error, and the resource leaves the table even when the unlock fails |
| TopoLocks.CheckLocked | go/vt/topo/locks.go:231-248 | no lock table, no entry for the resource, or a lost lock are each reported; a held lock checks out |
| TopoLocks.RelockAfterRelease | go/vt/topo/routing_rules_lock_test.go:73-83 | relocking a held resource in the same operation is refused as already held; after the release the operation holds no locks and a new operation locks the resource in a new lock table |
| TopoLocks.LockWhileHeldElsewhere | go/vt/topo/routing_rules_lock_test.go:53-59 | while one operation holds a lock, another's blocking attempt ends in the deadline and its non-blocking attempt in NodeExists; after the release the lock is granted again |
| SrvTopoDiscover.PartitionTargets | go/vt/srvtopo/discover.go:84-91 | one target per shard reference of the partition, in order, with the cell, keyspace and served type |
| SrvTopoDiscover.FindAllTargets | go/vt/srvtopo/discover.go:35-102 | with no keyspaces named the served names are used, and a failure to list them is returned; otherwise the targets are exactly those of every keyspace, partition and reference, unless some keyspace lookup failed with an error other than NoNode, in which case all such errors are returned |
| SrvTopoDiscover.KeyspaceTargetsMembers | go/vt/srvtopo/discover.go:68-93 | a target is found for a keyspace exactly when some partition served by a requested tablet type references its shard |
| SrvTopoDiscover.AllTargetsMembers | go/vt/srvtopo/discover.go:48-95 | a target is found exactly when its keyspace is requested and answers a serving graph that offers it |
| SrvTopoDiscover.RepeatedTypesIrrelevant | go/vt/srvtopo/discover.go:70-75 | the targets depend only on the set of requested tablet types, not on their order or repetitions |
| SrvTopoDiscover.OneTargetPerReference | go/vt/srvtopo/discover.go:80-91 | a keyspace yields exactly one target per shard reference of each requested partition |
| SrvTopoDiscover.NoNodeSkipped | go/vt/srvtopo/discover.go:55-59 | a keyspace missing from the serving graph contributes neither targets nor errors |
| SrvTopoDiscover.OtherErrorRecorded | go/vt/srvtopo/discover.go:60-63 | any other lookup failure of a keyspace is among the errors |
| SrvTopoDiscover.PartitionsTargets | go/vt/srvtopo/discover.go:67-91 | one keyspace contributes the targets of exactly the partitions whose served type is requested, in partition order, one per shard reference |
| SrvTopoDiscover.Requested | go/vt/srvtopo/discover.go:69-75 | a partition is waited for exactly when its served type is among the requested tablet types |
| SrvTopoDiscover.FindAllTargetsOnFakeTopo | go/vt/discovery/keyspace_events_test.go:346-366 | on the test server (one keyspace split at 0x80, served by primaries) discovery finds exactly the two primary targets |
| KeyspaceEvents.HexChar | go/vt/discovery/keyspace_events_test.go:352-353 | a nibble prints as a digit or a lower-case letter a-f that reads back as that nibble |
| KeyspaceEvents.HexDecode | go/vt/discovery/keyspace_events_test.go:352-353 | a hex string decodes into half as many bytes; it fails exactly when its length is odd or a character is not a hex digit |
| KeyspaceEvents.HexEncode | go/vt/discovery/keyspace_events_test.go:352-353 | bytes print as twice as many characters, each a digit or a lower-case letter a-f |
| KeyspaceEvents.HexRoundTrip | go/vt/discovery/keyspace_events_test.go:352-353 | encoding bytes as hex and decoding them gives the bytes back |
| KeyspaceEvents.ShardNameRoundTrip | go/vt/discovery/keyspace_events_test.go:359-360 | the "start-end" name of a key range reads back as that key range |
| KeyspaceEvents.ParseShardName | go/vt/discovery/keyspace_events_test.go:359-360 | a name without a dash is no key range; a parsed range has a name of twice its bytes in hex around the dash; a name of hex digits around a dash is refused exactly when one half has an odd length |
| KeyspaceEvents.BytesLessIrreflexive | go/vt/discovery/keyspace_events_test.go:122-124 | no key is below itself in byte order |
| KeyspaceEvents.AdjacentRangesDisjoint | go/vt/discovery/keyspace_events_test.go:122-124 | two key ranges meeting at a bounded key do not overlap, in either order |
| KeyspaceEvents.NonEmptyRangeIntersectsItself | go/vt/discovery/keyspace_events_test.go:122-124 | a key range holding some key overlaps itself |
| KeyspaceEvents.ReshardingWitness | go/vt/discovery/keyspace_events_test.go:119-126 | an inconsistent keyspace, a primary target with a range name and a serving shard of another, overlapping range make TargetIsBeingResharded report resharding |
| KeyspaceEvents.ReshardingExplained | go/vt/discovery/keyspace_events_test.go:119-126 | TargetIsBeingResharded reports resharding only when the keyspace is inconsistent, the target is a primary with a range name and some serving shard of another range overlaps it |
| KeyspaceEvents.PrimaryIsNotServing | go/vt/discovery/keyspace_events_test.go:127-133 | a primary-down report is only for a primary of an inconsistent keyspace and comes with the known current primary; an unknown keyspace or shard reports nothing |
| KeyspaceEvents.ConsistentOrReplicaNeither | go/vt/discovery/keyspace_events_test.go:119-135 | a consistent keyspace or a non-primary target triggers neither explanation |
| KeyspaceEvents.PrimaryDownConditions | go/vt/discovery/keyspace_events_test.go:127-133 | the primary-down rule holds exactly when the keyspace is inconsistent, the target is a primary, its shard is not serving, a reparent was seen and the current primary is known |
| KeyspaceEvents.OnSrvKeyspace | go/vt/discovery/keyspace_events_test.go:38-56 | a nil snapshot with no error after a seen one keeps the watch alive (the case the test fixes); reconstructed, not from these lines: a missing keyspace stops the watch and marks the state deleted, other errors and unchanged snapshots keep watching, a changed snapshot is stored and makes the keyspace inconsistent |
| KeyspaceEvents.NilSnapshotKeepsWatching | go/vt/discovery/keyspace_events_test.go:50-55 | a nil snapshot after a seen one keeps the watch alive |
| KeyspaceEvents.OneToTwoIsResharding | go/vt/discovery/keyspace_events_test.go:160-195 | one-to-two resharding in progress: the unsharded primary is being resharded and not primary-down |
| KeyspaceEvents.TwoToFourIsResharding | go/vt/discovery/keyspace_events_test.go:197-256 | two-to-four resharding in progress: shard -80 is being resharded and not primary-down |
| KeyspaceEvents.UnshardedIsPrimaryDown | go/vt/discovery/keyspace_events_test.go:258-282 | an unsharded primary that stopped serving after a reparent is primary-down and not resharding |
| KeyspaceEvents.ShardedIsPrimaryDown | go/vt/discovery/keyspace_events_test.go:284-316 | a sharded primary that stopped serving after a reparent is primary-down and not resharding |
| SchemaHistorian.SearchPos | go/vt/vttablet/tabletserver/schema/historian.go:284-286 | the binary search returns an index within the range it searches |
| SchemaHistorian.SearchPosSplits | go/vt/vttablet/tabletserver/schema/historian.go:284-286 | on entries sorted by position the search splits them into those before the position and those at or after it |
| SchemaHistorian.TableFromHistoryForPos | go/vt/vttablet/tabletserver/schema/historian.go:283-296 | an empty cache gives no table, and a table found is that of some cached entry |
| SchemaHistorian.LookupExact | go/vt/vttablet/tabletserver/schema/historian.go:283-293 | a position equal to an entry's gives that entry's table |
| SchemaHistorian.LookupBetween | go/vt/vttablet/tabletserver/schema/historian.go:283-295 | a position strictly between two neighbouring entries gives the earlier entry's table |
| SchemaHistorian.LookupOutside | go/vt/vttablet/tabletserver/schema/historian.go:287-290 | a position before the first entry or after the last, or an empty cache, gives no table |
| SchemaHistorian.Insert | go/vt/vttablet/tabletserver/schema/historian.go:276-280 | inserting into the sorted order adds exactly that entry |
| SchemaHistorian.InsertSorted | go/vt/vttablet/tabletserver/schema/historian.go:276-280 | inserting into sorted entries keeps them sorted |
| SchemaHistorian.SortByPos | go/vt/vttablet/tabletserver/schema/historian.go:276-280 | the entries come out in ascending position order and are a permutation of the input |
| SchemaHistorian.YoungEntriesMembers | go/vt/vttablet/tabletserver/schema/historian.go:266-272 | a purge keeps exactly the entries younger than the maximum age |
| SchemaHistorian.YoungEntriesCount | go/vt/vttablet/tabletserver/schema/historian.go:266-272 | a purge keeps every young entry as many times as it occurred |
| SchemaHistorian.Young | go/vt/vttablet/tabletserver/schema/historian.go:255-271 | the strict younger-than test of the purge; its ensures (never also Overdue) is only the arithmetic of "<" against ">" on the same age, and the boundary case is in BoundaryEntry |
| SchemaHistorian.YoungEntries | go/vt/vttablet/tabletserver/schema/historian.go:266-272 | a purge keeps no more entries than there were, and only young ones |
| SchemaHistorian.BoundaryEntry | go/vt/vttablet/tabletserver/schema/historian.go:255-271 | an entry exactly the maximum age old does not start a purge, but one started by an older entry drops it |
| SchemaHistorian.QueryFor | go/vt/vttablet/tabletserver/schema/historian.go:172-179 | at start-up with a maximum age the rows updated after now minus that age are read, otherwise the rows after the last id |
| SchemaHistorian.DecodedPrefix | go/vt/vttablet/tabletserver/schema/historian.go:185-189 | the rows before the first row that does not decode |
| SchemaHistorian.Historian.constructor | go/vt/vttablet/tabletserver/schema/historian.go:64-72 | a new historian is closed, empty, with watermark 0 and the given settings |
| SchemaHistorian.Historian.SortSchemas | go/vt/vttablet/tabletserver/schema/historian.go:276-280 | the cache becomes sorted by position and keeps its entries |
| SchemaHistorian.Historian.PurgeOldSchemas | go/vt/vttablet/tabletserver/schema/historian.go:249-273 | the cache is filtered to its young entries, in order, only if some entry is overdue |
| SchemaHistorian.Historian.LoadFromDB | go/vt/vttablet/tabletserver/schema/historian.go:164-203 | a missing connection is an error; a failed query changes nothing and is not an error; the decoded rows are appended in order and move the watermark; a bad row stops the load with its error; a complete load purges (with a maximum age and a watermark) and sorts |
| SchemaHistorian.Historian.Open | go/vt/vttablet/tabletserver/schema/historian.go:86-105 | a disabled or open historian is left alone; otherwise the cache and the watermark are what a load leaves (Loaded), and it is open exactly when the load succeeded |
| SchemaHistorian.Historian.Close | go/vt/vttablet/tabletserver/schema/historian.go:108-118 | an open historian empties its cache and closes; the watermark is kept |
| SchemaHistorian.Historian.Enable | go/vt/vttablet/tabletserver/schema/historian.go:74-118 | disabling closes and never fails, keeping the watermark, and leaves a closed historian's cache alone; enabling an open historian keeps its cache and watermark; enabling a closed one loads as Open does (Loaded) and opens it exactly when the load succeeded |
| SchemaHistorian.Historian.RegisterVersionEvent | go/vt/vttablet/tabletserver/schema/historian.go:123-134 | a closed historian ignores version events; an open one loads the newer rows, with the cache, watermark and error a load leaves (Loaded) |
| SchemaHistorian.OpenThenVersionEvent | go/vt/vttablet/tabletserver/schema/historian.go:86-134 | opening a fresh historian loads the table's row and moves the watermark to its id; a version event then loads only the newer row, so both are cached and the watermark is the newer id |
| SchemaHistorian.OneRowLoaded | go/vt/vttablet/tabletserver/schema/historian.go:164-204 | without a maximum age, a load reading one decodable row appends it and moves the watermark to its id |
| SchemaHistorian.Historian.GetTableForPos | go/vt/vttablet/tabletserver/schema/historian.go:137-160 | closed or an empty GTID gives nothing; an undecodable GTID gives its error; otherwise the cache lookup at that position |
| Strs.ToLowerIdempotent | go/vt/vtctld/action_repository.go:147-149 | lower-casing twice is lower-casing once |
| Strs.EqualFoldIsLowerEquality | go/vt/vtgate/semantics/real_table.go:45 | names are equal up to case exactly when their lower-case forms are equal |
| Strs.EqualFold | go/vt/vtgate/semantics/real_table.go:45 | equal strings are equal up to case, and strings equal up to case have the same length |
| Semantics.GetColumns | go/vt/vtgate/semantics/real_table.go:72-106 | nothing without a VSchema table; the table's columns in order, without invisible ones when asked; then, unless authoritative, the first occurrence of each vindex column not already named |
| Semantics.ReportTableColumns | go/vt/vtgate/semantics/real_table.go:76-88 | the table-column loop reports the kept columns and records their names |
| Semantics.AppendVindexColumns | go/vt/vtgate/semantics/real_table.go:93-104 | the vindex loop appends the first occurrence of each vindex column not yet recorded |
| Semantics.NewNamesMembers | go/vt/vtgate/semantics/real_table.go:95-98 | a vindex column is added exactly when some vindex names it and no reported table column has its name |
| Semantics.NewNamesDistinct | go/vt/vtgate/semantics/real_table.go:95-102 | no vindex column is added twice |
| Semantics.TableColumnsMembers | go/vt/vtgate/semantics/real_table.go:78-81 | a column is reported exactly when the table has it and it is not an ignored invisible column |
| Semantics.AllTableColumns | go/vt/vtgate/semantics/real_table.go:78-88 | without ignoring invisible columns every table column is reported, in order |
| Semantics.AuthoritativeColumnsExact | go/vt/vtgate/semantics/real_table.go:89-91 | an authoritative table reports exactly its own columns, in order |
| Semantics.VindexColumnsAppended | go/vt/vtgate/semantics/real_table.go:89-105 | a non-authoritative table reports its table columns first, then exactly the vindex columns not already reported |
| Semantics.MatchesOwnName | go/vt/vtgate/semantics/real_table.go:154-156 | a table name matches with an empty qualifier or the table's database and the table's own name, and no other name matches |
| Semantics.FirstFold | go/vt/vtgate/semantics/real_table.go:44-48 | the first reported column equal to the name up to case |
| Semantics.Dependencies | go/vt/vtgate/semantics/real_table.go:42-54 | a column matching up to case gives a certain dependency with the first match's type; otherwise nothing for an authoritative table, uncertain for any other |
| Semantics.ShortCutFor | go/vt/vtgate/semantics/real_table.go:113-131 | only a reference table can shortcut; a plain table named by its own name depends on its keyspace; everything else cannot |
| DbConnPool.FirstFailure | go/vt/dbconnpool/connection.go:102-105 | the first callback call that fails |
| DbConnPool.BatchesCoverRows | go/vt/dbconnpool/connection.go:109-134 | the batches flushed and the pending rows are exactly the rows read, in order |
| DbConnPool.BatchBounds | go/vt/dbconnpool/connection.go:120-133 | no flushed batch is empty and each has at least the buffer size in bytes; the counter is the pending rows' byte count, below the buffer size, and restarts at 0 after a flush |
| DbConnPool.RowsDelivered | go/vt/dbconnpool/connection.go:109-143 | with a clean end of rows the batches sent hold exactly the rows, in order, and none is empty |
| DbConnPool.FieldsFirst | go/vt/dbconnpool/connection.go:97-105 | the first result carries only the fields; every later one carries rows |
| DbConnPool.StopsOnlyOnError | go/vt/dbconnpool/connection.go:102-140 | without callback failures everything is sent; a failing callback stops the stream right after the failing call, with an error |
| DbConnPool.SendAll | go/vt/dbconnpool/connection.go:97-143 | the fields and then the batches are sent until a callback fails (its error returned, prefixed "stream send error: " for the fields call) or a read fails after what was flushed |
| DbConnPool.SendRows | go/vt/dbconnpool/connection.go:108-134 | reading the rows stops at the first callback failure on a flushed batch, with the outcome of the whole stream; otherwise every row is read, the full batches were sent and the rest is pending |
| DbConnPool.DBConnection.ExecuteStreamFetch | go/vt/dbconnpool/connection.go:88-144 | a query error or a fields error is returned before anything is sent; otherwise as the send outcome; a query or read connection error closes the connection |
| DbConnPool.DBConnection.HandleError | go/vt/dbconnpool/connection.go:146-150 | a connection error closes the connection |
| Json.NewArray | go/vt/vtgate/evalengine/internal/json/helpers.go:43-48 | an array of exactly the given elements |
| Json.NewObject | go/vt/vtgate/evalengine/internal/json/helpers.go:50-55 | an empty object |
| Json.NewNumber | go/vt/vtgate/evalengine/internal/json/helpers.go:57-62 | a number tagged as such holding the given text |
| Json.NewString | go/vt/vtgate/evalengine/internal/json/helpers.go:64-69 | a string tagged as such holding the given bytes |
| Json.NewBlob | go/vt/vtgate/evalengine/internal/json/helpers.go:71-76 | a blob tagged as such holding the given bytes |
| Json.NewBit | go/vt/vtgate/evalengine/internal/json/helpers.go:78-83 | a bit value tagged as such holding the given bytes |
| Json.NewDate | go/vt/vtgate/evalengine/internal/json/helpers.go:85-90 | a date tagged as such holding the given bytes |
| Json.NewDateTime | go/vt/vtgate/evalengine/internal/json/helpers.go:92-97 | a datetime tagged as such holding the given bytes |
| Json.NewTime | go/vt/vtgate/evalengine/internal/json/helpers.go:99-104 | a time tagged as such holding the given bytes |
| Json.DepthOf | go/vt/vtgate/evalengine/internal/json/helpers.go:106-126 | the depth of every value is at least 1 |
| Json.MaxDepthBounds | go/vt/vtgate/evalengine/internal/json/helpers.go:120-123 | the greatest element depth bounds every element's, is 0 exactly for no elements and is reached by some element |
| Json.MaxEntryDepthBounds | go/vt/vtgate/evalengine/internal/json/helpers.go:116-119 | the same over an object's entries |
| Json.DepthBounds | go/vt/vtgate/evalengine/internal/json/helpers.go:106-126 | a container is deeper than each child and exactly one deeper than its deepest child; scalars and empty containers have depth 1 |
| Json.Depth | go/vt/vtgate/evalengine/internal/json/helpers.go:106-126 | the running maximum over the children, plus one, is the depth |
| Json.Len | go/vt/vtgate/evalengine/internal/json/helpers.go:128-137 | the element count of an array, the entry count of an object, 1 for anything else |
| Json.ConstructedShapes | go/vt/vtgate/evalengine/internal/json/helpers.go:43-137 | scalars have depth and length 1, a new object depth 1 and length 0, an array one element per value and more depth than each |
| Json.WrapDeepens | go/vt/vtgate/evalengine/internal/json/helpers.go:120-125 | wrapping a value in an array adds exactly one to its depth |
| Vtctld.WithError | go/vt/vtctld/action_repository.go:51-54 | a result marked failed carries the text as its output and keeps its name and parameters |
| Vtctld.Finish | go/vt/vtctld/action_repository.go:135-140 | an action that ran fails with its error text or succeeds with its output |
| Vtctld.NormalizeShard | go/vt/vtctld/action_repository.go:145-149 | a shard name with a dash is lower-cased; any other name is kept as it is |
| Vtctld.NormalizeShardIdempotent | go/vt/vtctld/action_repository.go:145-149 | normalising a shard name keeps its length and dashes, leaves no upper-case letter in a range name, and is idempotent |
| Vtctld.Decimal | go/vt/vtctld/action_repository.go:174 | a uid prints as at least one decimal digit, with no leading zero unless it is 0 |
| Vtctld.DecimalValue | go/vt/vtctld/action_repository.go:174 | the decimal digits of a uid read back as the uid |
| Vtctld.DecimalLength | go/vt/vtctld/action_repository.go:174 | a number below 10^k prints as at most k digits |
| Vtctld.UidWidth | go/vt/vtctld/action_repository.go:174 | a 32-bit uid prints as at most ten digits |
| Vtctld.ZeroPad | go/vt/vtctld/action_repository.go:174 | padding keeps the digits at the end and fills up to the width with zeros |
| Vtctld.AliasString | go/vt/vtctld/action_repository.go:172-175 | the parameters of a tablet action are the cell, a dash and decimal digits that read back as the uid: exactly ten for any 32-bit uid, at least ten for any uid |
| Vtctld.PaddedUid | go/vt/vtctld/action_repository.go:174 | the zero-padded digits of a uid are all digits and read back as the uid |
| Vtctld.PaddedWidth | go/vt/vtctld/action_repository.go:174 | a uid is padded to at least ten digits, and to exactly ten when it fits in 32 bits |
| Vtctld.AliasOfUidFive | go/vt/vtctld/action_repository.go:172-175 | uid 5 in cell "c" prints as "c-0000000005" |
| Vtctld.PaddingKeepsValue | go/vt/vtctld/action_repository.go:174 | leading zeros keep a string of digits a string of digits with the same value |
| Vtctld.ActionRepository.constructor | go/vt/vtctld/action_repository.go:93-101 | a new repository has no actions |
| Vtctld.ActionRepository.RegisterKeyspaceAction | go/vt/vtctld/action_repository.go:104-106 | registering replaces the action of that name and leaves all others |
| Vtctld.ActionRepository.RegisterShardAction | go/vt/vtctld/action_repository.go:109-111 | registering replaces the action of that name and leaves all others |
| Vtctld.ActionRepository.RegisterTabletAction | go/vt/vtctld/action_repository.go:114-119 | registering replaces the action and role of that name and leaves all others |
| Vtctld.ActionRepository.ApplyKeyspaceAction | go/vt/vtctld/action_repository.go:122-141 | an unknown action fails as "Unknown keyspace action" and runs nothing; a known one runs on the keyspace and reports its error or output |
| Vtctld.ActionRepository.ApplyShardAction | go/vt/vtctld/action_repository.go:144-168 | a shard name with a dash is lower-cased before it is shown as "keyspace/shard" and passed on; an unknown action fails and runs nothing; a known one reports its error or output |
| Vtctld.ActionRepository.ApplyTabletAction | go/vt/vtctld/action_repository.go:171-202 | an unknown action fails, and so does an action whose required role the caller lacks ("Access denied"), both without running it; otherwise the action runs and reports its error or output |
| SchemaDiff.DeclaredTable | go/vt/schemadiff/semantics.go:83-89 | a declared table has no columns, an authoritative column list and the semantic keyspace |
| SchemaDiff.DeclaredColumn | go/vt/schemadiff/semantics.go:95-97 | a declared column is visible and has no type |
| SchemaDiff.DeclarativeSchemaInformation.constructor | go/vt/schemadiff/semantics.go:45-50 | a new schema information has no tables |
| SchemaDiff.DeclarativeSchemaInformation.FindTableOrVindex | go/vt/schemadiff/semantics.go:53-56 | the table of that name if declared, else none; never a vindex, keyspace, tablet type, destination or error |
| SchemaDiff.DeclarativeSchemaInformation.ForeignKeyMode | go/vt/schemadiff/semantics.go:66-68 | foreign keys are unmanaged, without error |
| SchemaDiff.DeclarativeSchemaInformation.KeyspaceError | go/vt/schemadiff/semantics.go:70-72 | no keyspace is in error |
| SchemaDiff.DeclarativeSchemaInformation.AddTable | go/vt/schemadiff/semantics.go:83-91 | the declared table replaces any table of that name; the others are unchanged |
| SchemaDiff.DeclarativeSchemaInformation.AddColumn | go/vt/schemadiff/semantics.go:94-99 | the column is appended to the existing table, keeping its earlier columns; all other tables are unchanged |
| SchemaDiff.DeclaredColumnsExact | go/vt/schemadiff/semantics.go:94-99 | columns added one after another are exactly the named columns, visible and untyped, in order |
| SchemaDiff.DeclaredTableResolution | go/vt/schemadiff/semantics.go:83-99 | to the semantic analyser a declared table is authoritative, reports exactly its declared columns and, named directly, depends on its keyspace for shortcutting |

## Left out

- Concurrency. Discovery runs one goroutine per keyspace; here keyspaces are visited in order, so the order of the targets and the order of the aggregated errors follow the requested keyspaces. The watcher's event broadcasting and its subscribers are not modelled either. Mutexes are not modelled.
- Timeouts, contexts, tracing spans and logging. A blocking lock on a held path ends in the lock deadline at once, instead of waiting for the holder to release it.
- The host name, user name and time a new lock record carries, and its JSON form. These come from the operating system and the clock, and a marshalling failure cannot happen for these fields.
- The lock primitive of the topology server's global cell is modelled as a table of held paths. Its implementation (the topology connection interface) is not part of this model.
- The implementation of the keyspace event watcher (keyspace_events.go) is not part of this model. Its two decision rules follow the conditions listed in the test's documentation. Its watch callback is reconstructed from the test's expectations and the Vitess design: a nil snapshot with no error keeps the watch alive.
- KeyspaceEvents.OverlappingShardServing: shard key ranges are read from the shard names. Rejecting stale reparent events by time is not modelled.
- Replication positions are integers with the usual total order. GTID sets, with their partial order under "at least", are not modelled, and the GTID decoder is a parameter.
- Reading one row of the schema_version table (the column conversions and the protobuf decoding of the schema) is abstracted: each row arrives already decoded or as an error.
- SchemaHistorian.Historian.SortSchemas: the library sort is replaced by an insertion sort. Its contract is only what the library promises, a sorted permutation; which of several entries at the same position comes first is not fixed.
- SchemaHistorian.Historian.LoadFromDB: the conversion of a negative maximum age into a duration, and 64-bit overflow of the ids and times, are not modelled.
- Semantics.GetColumns: a column's evaluation-engine type is left as the column's SQL type name. Which table set a dependency covers is not modelled.
- Strs.EqualFold: Unicode simple case folding is reduced to ASCII letters. The same applies to lower-casing shard names in Vtctld.NormalizeShard.
- The ACL check (acl.CheckAccessHTTP) is a parameter. The wrangler and tablet-manager client given to actions are not modelled, since actions are pure functions of their arguments here.
- Vtctld.AliasString follows the Vitess tablet alias format ("cell-" and the uid padded to ten digits). The topoproto package is not part of this model. The uid is an unbounded natural rather than a 32-bit one, so exactly ten digits is promised for uids below 10^10, which covers every 32-bit value.
- Vindexes.TypeReference is the Vitess reference-table type "reference". The vindexes package is not part of this model.
- Json: the value's hashing and raw-byte rendering are outside the helpers modelled. Object.Len is taken to be the number of entries. The parser's numeric type codes are replaced by an enumeration.
- DbConnPool: closing the result set, reconnecting and the connection-setting stubs are not modelled. Neither are the allocation of result buffers and the driver's own field and row decoding.
- SchemaDiff: tables are values in the map. A caller keeping a table obtained from FindTableOrVindex does not see columns added to it later, which the pointer-based original would show.
