// Discovery of the serving targets of a cell: every (cell, keyspace, shard,
// tablet type) the serving graph lists for the requested tablet types. The
// per-keyspace reads, concurrent in the system, are made one after the other
// here; the result is used as an unordered collection.
module SrvTopoDiscover {
  import opened TopoData

  /** The reads of the serving graph that discovery makes, as fixed answers
      per cell and per (cell, keyspace). */
  datatype SrvTopoServer = SrvTopoServer(
    srvKeyspaceNames: string -> Result<seq<string>>,
    srvKeyspace: (string, string) -> Result<SrvKeyspace>)

  /** What the call returns: the targets, the error of the keyspace-name
      lookup, or the aggregate of every per-keyspace error. */
  datatype Discovery =
    | Targets(targets: seq<Target>)
    | Failed(error: TopoError)
    | Aggregated(errors: seq<TopoError>)

  /** One target per shard reference of partition `p`. */
  function PartitionTargets(cell: string, keyspace: string, p: KeyspacePartition): (r: seq<Target>)
  {
    seq(|p.shardReferences|, i requires 0 <= i < |p.shardReferences| =>
      Target(cell, keyspace, p.shardReferences[i].name, p.servedType))
  }

  /** The targets of one keyspace: those of each partition whose served type
      is requested, in partition order. */
  function KeyspaceTargets(cell: string, keyspace: string, parts: seq<KeyspacePartition>, tabletTypes: seq<TabletType>): seq<Target>
  {
    if parts == [] then []
    else
      var last := parts[|parts| - 1];
      KeyspaceTargets(cell, keyspace, parts[..|parts| - 1], tabletTypes)
        + (if last.servedType in tabletTypes then PartitionTargets(cell, keyspace, last) else [])
  }

  /** The targets of every keyspace whose serving graph could be read. */
  function AllTargets(ts: SrvTopoServer, cell: string, keyspaces: seq<string>, tabletTypes: seq<TabletType>): seq<Target>
  {
    if keyspaces == [] then []
    else
      var ks := keyspaces[|keyspaces| - 1];
      AllTargets(ts, cell, keyspaces[..|keyspaces| - 1], tabletTypes)
        + (match ts.srvKeyspace(cell, ks)
           case Ok(srv) => KeyspaceTargets(cell, ks, srv.partitions, tabletTypes)
           case Err(_) => [])
  }

  /** The per-keyspace errors that are recorded: all but `NoNode`. */
  function KeyspaceErrors(ts: SrvTopoServer, cell: string, keyspaces: seq<string>): seq<TopoError>
  {
    if keyspaces == [] then []
    else
      var ks := keyspaces[|keyspaces| - 1];
      KeyspaceErrors(ts, cell, keyspaces[..|keyspaces| - 1])
        + (match ts.srvKeyspace(cell, ks)
           case Err(e) => if e == NoNode then [] else [e]
           case Ok(_) => [])
  }

  /** Finds the targets of `keyspaces` (all keyspaces of the cell when empty)
      for `tabletTypes`. Every keyspace is visited before an error is
      reported. */
  method FindAllTargets(ts: SrvTopoServer, cell: string, keyspaces: seq<string>, tabletTypes: seq<TabletType>)
    returns (r: Discovery)
    ensures keyspaces == [] && ts.srvKeyspaceNames(cell).Err? ==> r == Failed(ts.srvKeyspaceNames(cell).error)
    ensures keyspaces != [] || ts.srvKeyspaceNames(cell).Ok? ==>
              var ks := if keyspaces == [] then ts.srvKeyspaceNames(cell).value else keyspaces;
              r == if KeyspaceErrors(ts, cell, ks) != [] then Aggregated(KeyspaceErrors(ts, cell, ks))
                   else Targets(AllTargets(ts, cell, ks, tabletTypes))
  {
    var kss := keyspaces;
    if |kss| == 0 {
      var names := ts.srvKeyspaceNames(cell);
      if names.Err? {
        return Failed(names.error);
      }
      kss := names.value;
    }
    var targets: seq<Target> := [];
    var errs: seq<TopoError> := [];
    var n := 0;
    while n < |kss|
      invariant 0 <= n <= |kss|
      invariant targets == AllTargets(ts, cell, kss[..n], tabletTypes)
      invariant errs == KeyspaceErrors(ts, cell, kss[..n])
    {
      var keyspace := kss[n];
      assert kss[..n + 1][..n] == kss[..n];
      var ks := ts.srvKeyspace(cell, keyspace);
      if ks.Err? {
        if ks.error != NoNode {
          errs := errs + [ks.error];
        }
      } else {
        var found := PartitionsTargets(cell, keyspace, ks.value.partitions, tabletTypes);
        targets := targets + found;
      }
      n := n + 1;
    }
    assert kss[..n] == kss;
    if |errs| > 0 {
      return Aggregated(errs);
    }
    r := Targets(targets);
  }

  /** The targets of one keyspace's partitions, in partition order. */
  method PartitionsTargets(cell: string, keyspace: string, parts: seq<KeyspacePartition>, tabletTypes: seq<TabletType>)
    returns (targets: seq<Target>)
    ensures targets == KeyspaceTargets(cell, keyspace, parts, tabletTypes)
  {
    targets := [];
    var j := 0;
    while j < |parts|
      invariant 0 <= j <= |parts|
      invariant targets == KeyspaceTargets(cell, keyspace, parts[..j], tabletTypes)
    {
      assert parts[..j + 1][..j] == parts[..j];
      var part := parts[j];
      var waitForIt := Requested(part.servedType, tabletTypes);
      if waitForIt {
        var refs := part.shardReferences;
        ghost var before := targets;
        var m := 0;
        while m < |refs|
          invariant 0 <= m <= |refs|
          invariant targets == before + PartitionTargets(cell, keyspace, part)[..m]
        {
          targets := targets + [Target(cell, keyspace, refs[m].name, part.servedType)];
          m := m + 1;
        }
        assert PartitionTargets(cell, keyspace, part)[..m] == PartitionTargets(cell, keyspace, part);
      }
      j := j + 1;
    }
    assert parts[..j] == parts;
  }

  /** Whether `servedType` is one of the requested tablet types. */
  method Requested(servedType: TabletType, tabletTypes: seq<TabletType>) returns (found: bool)
    ensures found == (servedType in tabletTypes)
  {
    found := false;
    var k := 0;
    while k < |tabletTypes|
      invariant 0 <= k <= |tabletTypes|
      invariant found == (servedType in tabletTypes[..k])
    {
      assert tabletTypes[..k + 1] == tabletTypes[..k] + [tabletTypes[k]];
      if tabletTypes[k] == servedType {
        found := true;
      }
      k := k + 1;
    }
    assert tabletTypes[..k] == tabletTypes;
  }

  /** `t` is listed by one of the partitions `parts` serving its tablet type. */
  ghost predicate InPartitions(parts: seq<KeyspacePartition>, t: Target)
  {
    exists j, i :: 0 <= j < |parts| && 0 <= i < |parts[j].shardReferences|
                   && parts[j].servedType == t.tabletType && parts[j].shardReferences[i].name == t.shard
  }

  lemma {:induction false} KeyspaceTargetsMembers(cell: string, keyspace: string, parts: seq<KeyspacePartition>,
                                                 tabletTypes: seq<TabletType>, t: Target)
    ensures t in KeyspaceTargets(cell, keyspace, parts, tabletTypes) <==>
              t.cell == cell && t.keyspace == keyspace && t.tabletType in tabletTypes && InPartitions(parts, t)
  {
    if parts != [] {
      var init := parts[..|parts| - 1];
      var last := parts[|parts| - 1];
      KeyspaceTargetsMembers(cell, keyspace, init, tabletTypes, t);
      if InPartitions(parts, t) && t.cell == cell && t.keyspace == keyspace && t.tabletType in tabletTypes {
        var j, i :| 0 <= j < |parts| && 0 <= i < |parts[j].shardReferences|
                    && parts[j].servedType == t.tabletType && parts[j].shardReferences[i].name == t.shard;
        if j < |parts| - 1 {
          assert init[j] == parts[j];
          assert InPartitions(init, t);
        } else {
          assert PartitionTargets(cell, keyspace, last)[i] == t;
        }
      }
      if t in KeyspaceTargets(cell, keyspace, parts, tabletTypes) && t !in KeyspaceTargets(cell, keyspace, init, tabletTypes) {
        var i :| 0 <= i < |PartitionTargets(cell, keyspace, last)| && PartitionTargets(cell, keyspace, last)[i] == t;
        assert parts[|parts| - 1] == last;
      }
      if InPartitions(init, t) {
        var j, i :| 0 <= j < |init| && 0 <= i < |init[j].shardReferences|
                    && init[j].servedType == t.tabletType && init[j].shardReferences[i].name == t.shard;
        assert parts[j] == init[j];
      }
    }
  }

  /** Exactly the targets of readable keyspaces, for requested types that
      their partitions serve, are found. */
  lemma {:induction false} AllTargetsMembers(ts: SrvTopoServer, cell: string, keyspaces: seq<string>,
                                            tabletTypes: seq<TabletType>, t: Target)
    ensures t in AllTargets(ts, cell, keyspaces, tabletTypes) <==>
              && t.keyspace in keyspaces && t.cell == cell && t.tabletType in tabletTypes
              && ts.srvKeyspace(cell, t.keyspace).Ok?
              && InPartitions(ts.srvKeyspace(cell, t.keyspace).value.partitions, t)
  {
    if keyspaces != [] {
      var init := keyspaces[..|keyspaces| - 1];
      var ks := keyspaces[|keyspaces| - 1];
      assert keyspaces == init + [ks];
      AllTargetsMembers(ts, cell, init, tabletTypes, t);
      if ts.srvKeyspace(cell, ks).Ok? {
        KeyspaceTargetsMembers(cell, ks, ts.srvKeyspace(cell, ks).value.partitions, tabletTypes, t);
      }
    }
  }

  /** Requesting a tablet type several times changes nothing: only the set
      of requested types matters. */
  lemma {:induction false} RepeatedTypesIrrelevant(cell: string, keyspace: string, parts: seq<KeyspacePartition>,
                                                   tt1: seq<TabletType>, tt2: seq<TabletType>)
    requires forall x :: x in tt1 <==> x in tt2
    ensures KeyspaceTargets(cell, keyspace, parts, tt1) == KeyspaceTargets(cell, keyspace, parts, tt2)
  {
    if parts != [] {
      RepeatedTypesIrrelevant(cell, keyspace, parts[..|parts| - 1], tt1, tt2);
    }
  }

  /** The number of targets of a keyspace is the number of shard references
      of its requested partitions: one target per reference. */
  function RequestedRefCount(parts: seq<KeyspacePartition>, tabletTypes: seq<TabletType>): nat
  {
    if parts == [] then 0
    else
      var last := parts[|parts| - 1];
      RequestedRefCount(parts[..|parts| - 1], tabletTypes)
        + (if last.servedType in tabletTypes then |last.shardReferences| else 0)
  }

  lemma {:induction false} OneTargetPerReference(cell: string, keyspace: string, parts: seq<KeyspacePartition>,
                                                 tabletTypes: seq<TabletType>)
    ensures |KeyspaceTargets(cell, keyspace, parts, tabletTypes)| == RequestedRefCount(parts, tabletTypes)
  {
    if parts != [] {
      OneTargetPerReference(cell, keyspace, parts[..|parts| - 1], tabletTypes);
    }
  }

  /** A keyspace whose serving graph is missing adds neither targets nor an
      error. */
  lemma NoNodeSkipped(ts: SrvTopoServer, cell: string, keyspaces: seq<string>, ks: string, tabletTypes: seq<TabletType>)
    requires ts.srvKeyspace(cell, ks) == Err(NoNode)
    ensures AllTargets(ts, cell, keyspaces + [ks], tabletTypes) == AllTargets(ts, cell, keyspaces, tabletTypes)
    ensures KeyspaceErrors(ts, cell, keyspaces + [ks]) == KeyspaceErrors(ts, cell, keyspaces)
  {
    assert (keyspaces + [ks])[..|keyspaces|] == keyspaces;
  }

  /** Any other error of any keyspace makes the whole call fail. */
  lemma {:induction false} OtherErrorRecorded(ts: SrvTopoServer, cell: string, keyspaces: seq<string>, i: nat)
    requires i < |keyspaces|
    requires ts.srvKeyspace(cell, keyspaces[i]).Err? && ts.srvKeyspace(cell, keyspaces[i]).error != NoNode
    ensures ts.srvKeyspace(cell, keyspaces[i]).error in KeyspaceErrors(ts, cell, keyspaces)
  {
    var init := keyspaces[..|keyspaces| - 1];
    if i < |keyspaces| - 1 {
      assert init[i] == keyspaces[i];
      OtherErrorRecorded(ts, cell, init, i);
    }
  }

  /** The test server: one keyspace "ks1", split at 0x80, served by PRIMARY. */
  function FakeTopoServer(): SrvTopoServer
  {
    SrvTopoServer(
      cell => Ok(["ks1"]),
      (cell, keyspace) => Ok(SrvKeyspace([
        KeyspacePartition(Primary, [
          ShardReference("-80", KeyRange([], [0x80])),
          ShardReference("80-", KeyRange([0x80], []))])])))
  }

  /** With no keyspaces named, discovery on the test server finds exactly the
      two primary targets. */
  method FindAllTargetsOnFakeTopo(cell: string) returns (r: Discovery)
    ensures r == Targets([Target(cell, "ks1", "-80", Primary), Target(cell, "ks1", "80-", Primary)])
  {
    var ts := FakeTopoServer();
    r := FindAllTargets(ts, cell, [], [Primary]);
    assert ["ks1"][..0] == [];
    assert AllTargets(ts, cell, ["ks1"], [Primary]) == KeyspaceTargets(cell, "ks1", ts.srvKeyspace(cell, "ks1").value.partitions, [Primary]);
  }
}
