/** The caching lock client object. `acquire` and `releaser` never hold the mutex across an RPC; each method here is one
    of the regions between two RPCs or waits. */
module LockClientObject {
  import opened Wrappers
  import opened LockSpec

  type Lid = nat

  datatype LockIds = LockIds(status: Status, seqNum: nat)

  class LockClient {
    var lockMap: map<Lid, LockIds>
    var revokeMap: map<Lid, nat>
    var retryMap: map<Lid, bool>

    ghost function At(lid: Lid): Lock
      requires lid in lockMap
      reads this
    {
      Lock(lockMap[lid].status, lockMap[lid].seqNum, if lid in revokeMap then Some(revokeMap[lid]) else None,
           lid in retryMap && retryMap[lid])
    }

    /** All locks but lid are as before. */
    twostate predicate OnlyChanged(lid: Lid)
      reads this
    {
      && lockMap.Keys == old(lockMap.Keys)
      && forall l :: l in old(lockMap) && l != lid ==> At(l) == old(At(l))
    }

    constructor ()
      ensures lockMap == map[] && revokeMap == map[] && retryMap == map[]
    {
      lockMap, revokeMap, retryMap := map[], map[], map[];
    }

    /** The head of `acquire`: a lock never seen starts NONE with number 1. */
    method Register(lid: Lid)
      requires lid !in lockMap ==> lid !in revokeMap
      modifies this`lockMap, this`retryMap
      ensures lid in lockMap && At(lid) == if lid in old(lockMap) then old(At(lid)) else NewLock()
      ensures lockMap.Keys == old(lockMap.Keys) + {lid}
      ensures forall l :: l in old(lockMap) && l != lid ==> At(l) == old(At(l))
    {
      if lid !in lockMap {
        lockMap := lockMap[lid := LockIds(NONE, 1)];
        retryMap := retryMap[lid := false];
      }
    }

    /** Case NONE: the thread that finds it still NONE becomes the one that asks the server. */
    method TryAcquire(lid: Lid) returns (owner: bool, seqNum: nat)
      requires lid in lockMap
      modifies this`lockMap
      ensures owner == (old(At(lid)).status == NONE) && seqNum == old(At(lid)).seqNum && OnlyChanged(lid)
      ensures At(lid) == if owner then old(At(lid)).(status := ACQUIRING) else old(At(lid))
    {
      owner := lockMap[lid].status == NONE;
      if owner {
        lockMap := lockMap[lid := lockMap[lid].(status := ACQUIRING)];
      }
      seqNum := lockMap[lid].seqNum;
    }

    /** Case FREE: the thread that finds it still FREE takes it. */
    method TakeFree(lid: Lid) returns (owner: bool)
      requires lid in lockMap
      modifies this`lockMap
      ensures owner == (old(At(lid)).status == FREE) && OnlyChanged(lid)
      ensures At(lid) == if owner then old(At(lid)).(status := LOCKED) else old(At(lid))
    {
      owner := lockMap[lid].status == FREE;
      if owner {
        lockMap := lockMap[lid := lockMap[lid].(status := LOCKED)];
      }
    }

    /** After RETRY: the flag is cleared before the server is asked again. */
    method ClearRetry(lid: Lid) returns (waited: bool)
      requires lid in lockMap
      modifies this`retryMap
      ensures OnlyChanged(lid) && waited == !old(At(lid)).retry && At(lid) == old(At(lid)).(retry := false)
    {
      waited := !(lid in retryMap && retryMap[lid]);
      retryMap := retryMap[lid := false];
    }

    /** After OK: the lock is this thread's. */
    method Granted(lid: Lid)
      requires lid in lockMap
      modifies this`lockMap
      ensures OnlyChanged(lid) && At(lid) == old(At(lid)).(status := LOCKED)
    {
      lockMap := lockMap[lid := lockMap[lid].(status := LOCKED)];
    }

    /** The source asserts LOCKED. */
    method Release(lid: Lid) returns (wakeReleaser: bool)
      requires lid in lockMap && lockMap[lid].status == LOCKED
      modifies this`lockMap
      ensures OnlyChanged(lid) && At(lid) == Unlocked(old(At(lid))) && wakeReleaser == (At(lid).status == RELEASING)
    {
      var lc := lockMap[lid];
      wakeReleaser := lid in revokeMap && revokeMap[lid] == lc.seqNum;
      lockMap := lockMap[lid := lc.(status := if wakeReleaser then RELEASING else FREE)];
    }

    /** The revoke handler; it reads the lock's entry, so the lock must have been asked for. */
    method Revoke(lid: Lid, seqNo: nat)
      requires lid in lockMap
      modifies this`lockMap, this`revokeMap
      ensures OnlyChanged(lid) && At(lid) == Revoked(old(At(lid)), seqNo)
    {
      if (lid !in revokeMap || seqNo > revokeMap[lid]) && lockMap[lid].seqNum == seqNo {
        revokeMap := revokeMap[lid := seqNo];
        if lockMap[lid].status == FREE {
          lockMap := lockMap[lid := lockMap[lid].(status := RELEASING)];
        }
      }
    }

    method Retry(lid: Lid)
      requires lid in lockMap
      modifies this`retryMap
      ensures OnlyChanged(lid) && At(lid) == old(At(lid)).(retry := true)
    {
      retryMap := retryMap[lid := true];
    }

    /** The test before a release is sent. */
    method Pick(lid: Lid, seqNo: nat) returns (send: bool)
      requires lid in lockMap
      ensures send <==> DueForRelease(At(lid), seqNo)
    {
      send := lockMap[lid].seqNum == seqNo && lockMap[lid].status == RELEASING;
    }

    method GiveBack(lid: Lid)
      requires lid in lockMap
      modifies this`lockMap
      ensures OnlyChanged(lid) && At(lid) == GivenBack(old(At(lid)))
    {
      lockMap := lockMap[lid := LockIds(NONE, lockMap[lid].seqNum + 1)];
    }

    /** The releaser's last loop: drop every revoke of a grant already given back. */
    method PurgeAll()
      requires forall l :: l in revokeMap ==> l in lockMap
      modifies this`revokeMap
      ensures forall l :: l in lockMap ==> At(l) == Purged(old(At(l)))
      ensures forall l :: l in revokeMap ==> l in lockMap
    {
      var todo := revokeMap.Keys;
      while todo != {}
        invariant todo <= revokeMap.Keys
        invariant forall l :: l in lockMap && l in todo ==> At(l) == old(At(l))
        invariant forall l :: l in lockMap && l !in todo ==> At(l) == Purged(old(At(l)))
        invariant forall l :: l in revokeMap ==> l in lockMap
        decreases |todo|
      {
        var l :| l in todo;
        todo := todo - {l};
        if revokeMap[l] < lockMap[l].seqNum {
          revokeMap := revokeMap - {l};
        }
      }
    }
  }
}
