// Shared value types of the topology layer: tablet types, targets, tablet
// aliases, key ranges and serving keyspaces, and the error classes that the
// topology server reports.
module TopoData {
  import opened Wrappers

  /** The tablet types a partition can be served by. */
  datatype TabletType = Unknown | Primary | Replica | Rdonly | Batch | Spare | Experimental | Backup | Restore | Drained

  /** One serving endpoint: (cell, keyspace, shard, tablet type). */
  datatype Target = Target(cell: string, keyspace: string, shard: string, tabletType: TabletType)

  /** Identity of a tablet. */
  datatype TabletAlias = TabletAlias(cell: string, uid: nat)

  /** A key range; an empty bound is unbounded. */
  datatype KeyRange = KeyRange(start: seq<byte>, end: seq<byte>)

  datatype ShardReference = ShardReference(name: string, keyRange: KeyRange)

  /** The shards that serve one tablet type in a keyspace. */
  datatype KeyspacePartition = KeyspacePartition(servedType: TabletType, shardReferences: seq<ShardReference>)

  /** The serving graph of one keyspace in one cell. */
  datatype SrvKeyspace = SrvKeyspace(partitions: seq<KeyspacePartition>)

  /** Errors of the topology layer. `NoNode` and `NodeExists` are the typed
      classes callers test for; the others carry their message. */
  datatype TopoError =
    | NoNode
    | NodeExists
    | DeadlineExceeded
    | Internal(msg: string)
    | Remote(msg: string)

  /** The text a `TopoError` renders as. */
  function ErrorText(e: TopoError): string
  {
    match e
    case NoNode => "node doesn't exist"
    case NodeExists => "node already exists"
    case DeadlineExceeded => "deadline exceeded"
    case Internal(m) => m
    case Remote(m) => m
  }

  datatype Result<T> = Ok(value: T) | Err(error: TopoError)
}
