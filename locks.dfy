// Per-operation bookkeeping of topology locks: which resources the current
// operation holds, re-entrancy rejection, and the release step that records
// the action's final status and merges the unlock error into the caller's.
module TopoLocks {
  import opened Wrappers
  import opened TopoData

  /** The resource being locked: its kind ("keyspace", "shard", ...), the
      name it is remembered under, and the topology path it is locked at. */
  datatype LockTarget = LockTarget(typ: string, resourceName: string, path: string)

  /** The handle the topology server returns for a lock it granted. */
  datatype LockDescriptor = LockDescriptor(path: string, id: nat)

  const StatusRunning: string := "Running"
  const StatusDone: string := "Done"

  /** The status a lock record is given at release time. */
  function FinalStatus(actionError: Option<TopoError>): (s: string)
    ensures actionError.None? ==> s == StatusDone
    ensures actionError.Some? ==> s == "Error: " + ErrorText(actionError.value)
    ensures s != StatusRunning
  {
    if actionError.Some? then
      var s := "Error: " + ErrorText(actionError.value);
      assert s[0] == 'E' != StatusRunning[0];
      s
    else StatusDone
  }

  function AlreadyHeld(lt: LockTarget): TopoError
  {
    Internal("lock for " + lt.typ + " " + lt.resourceName + " is already held")
  }

  function UnlockedTwice(lt: LockTarget): TopoError
  {
    Internal("trying to unlock " + lt.typ + " " + lt.resourceName + " multiple times")
  }

  function NoLocksInfo(lt: LockTarget): TopoError
  {
    Internal(lt.typ + " " + lt.resourceName + " is not locked (no locksInfo)")
  }

  function NoLockInfoInMap(lt: LockTarget): TopoError
  {
    Internal(lt.typ + " " + lt.resourceName + " is not locked (no lockInfo in map)")
  }

  /** The lock primitive of the topology server's global cell, as a table
      from locked path to the id of the descriptor holding it. A remote failure
      the table cannot explain (a lost connection, a server error) is passed in
      as `fault`. Waiting is not modelled: a blocking lock on a held path can
      only end in the lock timeout. */
  class GlobalCell {
    var held: map<string, nat>
    var nextId: nat

    constructor ()
      ensures held == map[] && nextId == 0
    {
      held := map[];
      nextId := 0;
    }

    /** Blocking lock: waits for the path, so on a held path it times out. */
    method Lock(path: string, fault: Option<TopoError>) returns (r: Result<LockDescriptor>)
      modifies this
      ensures fault.Some? ==> r == Err(fault.value) && held == old(held)
      ensures fault.None? && path in old(held) ==> r == Err(DeadlineExceeded) && held == old(held)
      ensures fault.None? && path !in old(held) ==>
                r.Ok? && r.value.path == path && held == old(held)[path := r.value.id]
    {
      if fault.Some? {
        r := Err(fault.value);
      } else if path in held {
        r := Err(DeadlineExceeded);
      } else {
        r := Ok(LockDescriptor(path, nextId));
        held := held[path := nextId];
        nextId := nextId + 1;
      }
    }

    /** Non-blocking lock: a held path fails at once with `NodeExists`. */
    method TryLock(path: string, fault: Option<TopoError>) returns (r: Result<LockDescriptor>)
      modifies this
      ensures fault.Some? ==> r == Err(fault.value) && held == old(held)
      ensures fault.None? && path in old(held) ==> r == Err(NodeExists) && held == old(held)
      ensures fault.None? && path !in old(held) ==>
                r.Ok? && r.value.path == path && held == old(held)[path := r.value.id]
    {
      if fault.Some? {
        r := Err(fault.value);
      } else if path in held {
        r := Err(NodeExists);
      } else {
        r := Ok(LockDescriptor(path, nextId));
        held := held[path := nextId];
        nextId := nextId + 1;
      }
    }

    /** Whether `d` is the descriptor currently holding its path. */
    predicate Holds(d: LockDescriptor)
      reads this
    {
      d.path in held && held[d.path] == d.id
    }

    /** Releases the lock `d` describes; a descriptor that no longer holds
        its path is refused with `NoNode` and releases nothing. */
    method Unlock(d: LockDescriptor, fault: Option<TopoError>) returns (err: Option<TopoError>)
      modifies this
      ensures nextId == old(nextId)
      ensures fault.Some? ==> err == fault && held == old(held)
      ensures fault.None? && old(Holds(d)) ==> err.None? && held == old(held) - {d.path}
      ensures fault.None? && !old(Holds(d)) ==> err == Some(NoNode) && held == old(held)
    {
      if fault.Some? {
        err := fault;
      } else if Holds(d) {
        held := held - {d.path};
        err := None;
      } else {
        err := Some(NoNode);
      }
    }

    /** Liveness check that `d` still holds its lock. */
    method Check(d: LockDescriptor, fault: Option<TopoError>) returns (err: Option<TopoError>)
      ensures fault.Some? ==> err == fault
      ensures fault.None? ==> (err.None? <==> Holds(d))
    {
      if fault.Some? {
        err := fault;
      } else if Holds(d) {
        err := None;
      } else {
        err := Some(NoNode);
      }
    }
  }

  /** The record describing a lock in flight. Host, user and time are not
      modelled. */
  class Lock {
    const action: string
    var status: string

    /** A new lock starts out running. */
    constructor (action: string)
      ensures this.action == action && status == StatusRunning
    {
      this.action := action;
      status := StatusRunning;
    }

    /** Takes the lock at `lt.path`, blocking or not as asked. */
    method LockRemote(ts: GlobalCell, lt: LockTarget, isBlocking: bool, fault: Option<TopoError>)
      returns (r: Result<LockDescriptor>)
      modifies ts
      ensures fault.Some? ==> r == Err(fault.value) && ts.held == old(ts.held)
      ensures fault.None? && lt.path in old(ts.held) ==>
                r == Err(if isBlocking then DeadlineExceeded else NodeExists) && ts.held == old(ts.held)
      ensures fault.None? && lt.path !in old(ts.held) ==>
                r.Ok? && r.value.path == lt.path && ts.held == old(ts.held)[lt.path := r.value.id]
    {
      if isBlocking {
        r := ts.Lock(lt.path, fault);
      } else {
        r := ts.TryLock(lt.path, fault);
      }
    }

    /** Records the action's outcome in `status`, then releases `d`. */
    method UnlockRemote(ts: GlobalCell, d: LockDescriptor, actionError: Option<TopoError>, fault: Option<TopoError>)
      returns (err: Option<TopoError>)
      modifies this, ts
      ensures status == FinalStatus(actionError)
      ensures ts.nextId == old(ts.nextId)
      ensures fault.Some? ==> err == fault && ts.held == old(ts.held)
      ensures fault.None? && old(ts.Holds(d)) ==> err.None? && ts.held == old(ts.held) - {d.path}
      ensures fault.None? && !old(ts.Holds(d)) ==> err == Some(NoNode) && ts.held == old(ts.held)
    {
      status := FinalStatus(actionError);
      err := ts.Unlock(d, fault);
    }
  }

  /** What the operation remembers about one lock it holds. */
  datatype LockInfo = LockInfo(lockDescriptor: LockDescriptor, actionNode: Lock)

  /** The locks one top-level operation holds, by resource name. */
  class LocksInfo {
    var info: map<string, LockInfo>

    constructor ()
      ensures info == map[]
    {
      info := map[];
    }
  }

  /** What the release closure captures: the operation's lock table, the
      resource, its lock record and the descriptor it was granted. */
  datatype ReleaseHandle = ReleaseHandle(locks: LocksInfo, lt: LockTarget, node: Lock, descriptor: LockDescriptor)

  /** Locks `lt` for `action` inside the operation whose lock table is `ctx`
      (null when the operation holds no table yet, in which case a fresh one is
      made). A resource already in the table is refused without contacting the
      server. On success the handle carries the table to pass on and what the
      release step needs. */
  method InternalLock(ts: GlobalCell, ctx: LocksInfo?, lt: LockTarget, action: string, isBlocking: bool,
                      fault: Option<TopoError>)
    returns (r: Result<ReleaseHandle>)
    modifies ts, ctx
    ensures ctx != null && lt.resourceName in old(ctx.info) ==>
              r == Err(AlreadyHeld(lt)) && ts.held == old(ts.held) && ctx.info == old(ctx.info)
    ensures ctx != null && lt.resourceName !in old(ctx.info) && r.Err? ==> ctx.info == old(ctx.info)
    ensures (ctx == null || lt.resourceName !in old(ctx.info)) ==>
              && (fault.Some? ==> r == Err(fault.value))
              && (fault.None? && lt.path in old(ts.held) ==>
                    r == Err(if isBlocking then DeadlineExceeded else NodeExists))
              && (fault.None? && lt.path !in old(ts.held) ==> r.Ok?)
              && (r.Err? ==> ts.held == old(ts.held))
    ensures r.Ok? ==>
              && (ctx != null ==> r.value.locks == ctx)
              && (ctx == null ==> fresh(r.value.locks))
              && fresh(r.value.node)
              && r.value.node.status == StatusRunning && r.value.node.action == action
              && r.value.lt == lt
              && r.value.descriptor.path == lt.path
              && ts.held == old(ts.held)[lt.path := r.value.descriptor.id]
              && r.value.locks.info ==
                   (if ctx == null then map[] else old(ctx.info))[lt.resourceName := LockInfo(r.value.descriptor, r.value.node)]
  {
    var i: LocksInfo;
    if ctx == null {
      i := new LocksInfo();
    } else {
      i := ctx;
    }
    if lt.resourceName in i.info {
      return Err(AlreadyHeld(lt));
    }
    var l := new Lock(action);
    var d := l.LockRemote(ts, lt, isBlocking, fault);
    if d.Err? {
      return Err(d.error);
    }
    i.info := i.info[lt.resourceName := LockInfo(d.value, l)];
    r := Ok(ReleaseHandle(i, lt, l, d.value));
  }

  /** The release closure. `finalErr` is the caller's error slot and the
      result is what the slot holds afterwards. A resource no longer in the
      table is not unlocked: the slot keeps its error, or gets a "multiple
      times" error if it had none. Otherwise the lock record gets its final
      status, the lock is released, the caller's error is kept in preference to
      the unlock error, and the resource leaves the table whatever the unlock
      returned. */
  method Release(ts: GlobalCell, h: ReleaseHandle, finalErr: Option<TopoError>, fault: Option<TopoError>)
    returns (newErr: Option<TopoError>)
    modifies ts, h.locks, h.node
    ensures h.lt.resourceName !in old(h.locks.info) ==>
              && newErr == (if finalErr.Some? then finalErr else Some(UnlockedTwice(h.lt)))
              && ts.held == old(ts.held) && h.locks.info == old(h.locks.info)
              && h.node.status == old(h.node.status)
    ensures h.lt.resourceName in old(h.locks.info) ==>
              && h.locks.info == old(h.locks.info) - {h.lt.resourceName}
              && h.node.status == FinalStatus(finalErr)
              && (finalErr.Some? ==> newErr == finalErr)
              && (finalErr.None? && fault.Some? ==> newErr == fault)
              && (finalErr.None? && fault.None? && old(ts.Holds(h.descriptor)) ==> newErr.None?)
              && (finalErr.None? && fault.None? && !old(ts.Holds(h.descriptor)) ==> newErr == Some(NoNode))
              && (fault.None? && old(ts.Holds(h.descriptor)) ==> ts.held == old(ts.held) - {h.descriptor.path})
              && (fault.Some? || !old(ts.Holds(h.descriptor)) ==> ts.held == old(ts.held))
  {
    var i := h.locks;
    if h.lt.resourceName !in i.info {
      if finalErr.Some? {
        newErr := finalErr;
      } else {
        newErr := Some(UnlockedTwice(h.lt));
      }
      return;
    }
    var err := h.node.UnlockRemote(ts, h.descriptor, finalErr, fault);
    if finalErr.Some? {
      newErr := finalErr;
    } else {
      newErr := err;
    }
    i.info := i.info - {h.lt.resourceName};
  }

  /** Checks that the operation holds `lt`: it needs a lock table, an entry
      for the resource, and the server's confirmation that the lock is live. */
  method CheckLocked(ts: GlobalCell, ctx: LocksInfo?, lt: LockTarget, fault: Option<TopoError>)
    returns (err: Option<TopoError>)
    ensures ctx == null ==> err == Some(NoLocksInfo(lt))
    ensures ctx != null && lt.resourceName !in ctx.info ==> err == Some(NoLockInfoInMap(lt))
    ensures ctx != null && lt.resourceName in ctx.info ==>
              && (fault.Some? ==> err == fault)
              && (fault.None? ==> (err.None? <==> ts.Holds(ctx.info[lt.resourceName].lockDescriptor)))
  {
    if ctx == null {
      return Some(NoLocksInfo(lt));
    }
    if lt.resourceName !in ctx.info {
      return Some(NoLockInfoInMap(lt));
    }
    err := ts.Check(ctx.info[lt.resourceName].lockDescriptor, fault);
  }

  /** Locking the same resource twice in one operation is refused; after the
      release, a new operation (one that holds no locks yet) can lock it
      again. */
  method RelockAfterRelease(ts: GlobalCell, lt: LockTarget)
    returns (first: Result<ReleaseHandle>, second: Result<ReleaseHandle>, third: Result<ReleaseHandle>)
    requires lt.path !in ts.held
    modifies ts
    ensures first.Ok? && fresh(first.value.locks)
    ensures second == Err(AlreadyHeld(lt))
    ensures third.Ok? && fresh(third.value.locks) && third.value.locks.info.Keys == {lt.resourceName}
    ensures first.value.locks.info.Keys == {}
  {
    first := InternalLock(ts, null, lt, "action", true, None);
    second := InternalLock(ts, first.value.locks, lt, "action", true, None);
    var err := Release(ts, first.value, None, None);
    third := InternalLock(ts, null, lt, "action", true, None);
  }

  /** While one operation holds a lock, another operation's blocking attempt
      runs into the lock timeout and its non-blocking attempt fails with
      `NodeExists`; once released, the lock can be taken again. */
  method LockWhileHeldElsewhere(ts: GlobalCell, lt: LockTarget)
    returns (held: Result<ReleaseHandle>, blocked: Result<ReleaseHandle>, tried: Result<ReleaseHandle>,
             unlockErr: Option<TopoError>, retried: Result<ReleaseHandle>)
    requires lt.path !in ts.held
    modifies ts
    ensures held.Ok?
    ensures blocked == Err(DeadlineExceeded)
    ensures tried == Err(NodeExists)
    ensures unlockErr.None? && held.value.node.status == StatusDone
    ensures retried.Ok? && retried.value.locks != held.value.locks
  {
    held := InternalLock(ts, null, lt, "lock", true, None);
    blocked := InternalLock(ts, null, lt, "lock", true, None);
    tried := InternalLock(ts, null, lt, "lock", false, None);
    unlockErr := Release(ts, held.value, None, None);
    retried := InternalLock(ts, null, lt, "lock", false, None);
  }
}
