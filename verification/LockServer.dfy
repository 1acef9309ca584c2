/** The lock server object: maps over all clients and locks, each handler one region held under the mutex. */
module LockServerObject {
  import opened Wrappers
  import opened LockSpec

  type Lid = nat

  type Table = map<Client, map<Lid, nat>>

  /** m[c][l] := x. */
  function Set(m: Table, c: Client, l: Lid, x: nat): Table {
    m[c := (if c in m then m[c] else map[])[l := x]]
  }

  predicate Has(m: Table, c: Client, l: Lid) {
    c in m && l in m[c]
  }

  /** m[c][l], 0 when there is none. */
  function Get(m: Table, c: Client, l: Lid): nat {
    if Has(m, c, l) then m[c][l] else 0
  }

  /** What a table says about one lock. */
  function Column(m: Table, l: Lid): map<Client, nat> {
    map c | c in m && l in m[c] :: m[c][l]
  }

  lemma SetColumn(m: Table, c: Client, l: Lid, x: nat)
    ensures Column(Set(m, c, l, x), l) == Column(m, l)[c := x]
    ensures forall k: nat :: k != l ==> Column(Set(m, c, l, x), k) == Column(m, k)
    ensures forall d, k: nat {:trigger Has(Set(m, c, l, x), d, k)} ::
              Has(Set(m, c, l, x), d, k) <==> Has(m, d, k) || (d, k) == (c, l)
    ensures forall d, k: nat {:trigger Get(Set(m, c, l, x), d, k)} ::
              Get(Set(m, c, l, x), d, k) == if (d, k) == (c, l) then x else Get(m, d, k)
  {
  }

  lemma ColumnGet(m: Table, c: Client, l: Lid)
    ensures c in Column(m, l) <==> Has(m, c, l)
    ensures (if c in Column(m, l) then Column(m, l)[c] else 0) == Get(m, c, l)
    ensures Touch(Column(m, l), c) == Column(m, l)[c := Get(m, c, l)]
  {
  }

  lemma SetSame(m: Table, c: Client, l: Lid)
    requires Has(m, c, l)
    ensures Set(m, c, l, m[c][l]) == m
  {
    assert m[c][l := m[c][l]] == m[c];
  }

  /** Having read the sequence number first changes nothing about a new request. */
  lemma AcquireAfterReading(s: Srv, c: Client, seqNo: nat)
    requires seqNo > SeqOf(s, c)
    ensures SrvAcquire(s.(seqOf := Touch(s.seqOf, c)), c, seqNo) == SrvAcquire(s, c, seqNo)
  {
    assert Touch(s.seqOf, c)[c := 0] == s.seqOf[c := 0];
    assert Touch(Touch(s.seqOf, c), c) == Touch(s.seqOf, c);
  }

  class LockServer {
    var clientLockSeq: Table
    var allocation: map<Lid, LockStatus>
    var revokeMap: Table
    var retryMap: map<Lid, set<Client>>
    var hasRelease: nat

    /** The parts that concern one lock. */
    ghost function At(lid: Lid): Srv
      reads this
    {
      Srv(if lid in allocation then Some(allocation[lid]) else None, Column(clientLockSeq, lid), Column(revokeMap, lid),
          if lid in retryMap then retryMap[lid] else {})
    }

    /** A free lock carries number 0, an unknown one was never granted, no queued revoke is newer than its client, and
        whenever clients wait for a free lock the retryer has a release to act on: no wake-up is lost. */
    ghost predicate Valid()
      reads this
    {
      && (forall l :: l in allocation && !allocation[l].isAllocated ==> allocation[l].seqNo == 0)
      && (forall c, l {:trigger Get(clientLockSeq, c, l)} :: l !in allocation ==> Get(clientLockSeq, c, l) == 0)
      && (forall c, l {:trigger Has(revokeMap, c, l)} :: Has(revokeMap, c, l) ==>
            Get(revokeMap, c, l) <= Get(clientLockSeq, c, l))
      && (forall l :: l in retryMap && retryMap[l] != {} ==>
            l in allocation && (allocation[l].isAllocated || hasRelease > 0))
    }

    constructor ()
      ensures Valid() && hasRelease == 0 && forall l :: At(l) == EmptySrv()
    {
      clientLockSeq, allocation, revokeMap, retryMap, hasRelease := map[], map[], map[], map[], 0;
    }

    /** `clientLockSeqMap[client][lid]`, which inserts 0 when there is none. */
    method ReadSeq(client: Client, lid: Lid) returns (x: nat)
      modifies this`clientLockSeq
      ensures x == Get(old(clientLockSeq), client, lid) && clientLockSeq == Set(old(clientLockSeq), client, lid, x)
    {
      if !Has(clientLockSeq, client, lid) {
        clientLockSeq := Set(clientLockSeq, client, lid, 0);
      } else {
        SetSame(clientLockSeq, client, lid);
      }
      x := clientLockSeq[client][lid];
    }

    method AddRetryRequest(lid: Lid, client: Client)
      modifies this`retryMap
      ensures retryMap == old(retryMap)[lid := (if lid in old(retryMap) then old(retryMap)[lid] else {}) + {client}]
    {
      var clients: set<Client> := {};
      if lid in retryMap {
        clients := retryMap[lid];
      }
      clients := clients + {client};
      retryMap := retryMap[lid := clients];
    }

    /** Queues the revoke of the client's current grant; the assertion is the source's. */
    method AddRevokeRequest(client: Client, lid: Lid)
      requires Has(revokeMap, client, lid) ==> Get(revokeMap, client, lid) <= Get(clientLockSeq, client, lid)
      modifies this`clientLockSeq, this`revokeMap
      ensures var x := Get(old(clientLockSeq), client, lid);
              clientLockSeq == Set(old(clientLockSeq), client, lid, x)
              && revokeMap == Set(old(revokeMap), client, lid, x)
    {
      if client !in revokeMap {
        revokeMap := Set(revokeMap, client, lid, 0);
      }
      var queued := Get(revokeMap, client, lid);
      var current := ReadSeq(client, lid);
      assert current >= queued;
      ghost var before := old(revokeMap);
      assert client !in before ==> revokeMap[client][lid := current] == (map[])[lid := current];
      revokeMap := Set(revokeMap, client, lid, current);
    }

    method Acquire(client: Client, lid: Lid, seqNo: nat) returns (ok: bool)
      requires Valid()
      modifies this
      ensures Valid() && hasRelease == old(hasRelease)
      ensures (At(lid), ok) == SrvAcquire(old(At(lid)), client, seqNo)
      ensures forall l :: l != lid ==> At(l) == old(At(l))
    {
      ColumnGet(clientLockSeq, client, lid);
      SetColumn(clientLockSeq, client, lid, Get(clientLockSeq, client, lid));
      var known := ReadSeq(client, lid);
      if seqNo <= known {
        return true;
      }
      AcquireAfterReading(old(At(lid)), client, seqNo);
      ok := Decide(client, lid, seqNo);
    }

    /** The rest of `acquire`, once the request is known to be new. */
    method Decide(client: Client, lid: Lid, seqNo: nat) returns (ok: bool)
      requires Valid() && Has(clientLockSeq, client, lid) && seqNo > Get(clientLockSeq, client, lid)
      modifies this
      ensures Valid() && hasRelease == old(hasRelease)
      ensures (At(lid), ok) == SrvAcquire(old(At(lid)), client, seqNo)
      ensures forall l :: l != lid ==> At(l) == old(At(l))
    {
      ColumnGet(clientLockSeq, client, lid);
      if lid !in allocation {
        assert Get(clientLockSeq, client, lid) == 0;
        SetColumn(clientLockSeq, client, lid, 0);
        allocation := allocation[lid := LockStatus(false, client, 0)];
        clientLockSeq := Set(clientLockSeq, client, lid, 0);
      }
      var ls := allocation[lid];
      if !ls.isAllocated {
        SetColumn(clientLockSeq, client, lid, seqNo);
        allocation := allocation[lid := LockStatus(true, client, seqNo)];
        clientLockSeq := Set(clientLockSeq, client, lid, seqNo);
        return true;
      } else {
        Refuse(client, lid, seqNo);
        return false;
      }
    }

    /** The branch of `acquire` for an allocated lock: queue a retry for the client and a revoke for the holder. */
    method Refuse(client: Client, lid: Lid, ghost seqNo: nat)
      requires Valid() && Has(clientLockSeq, client, lid) && seqNo > Get(clientLockSeq, client, lid)
      requires lid in allocation && allocation[lid].isAllocated
      modifies this`clientLockSeq, this`retryMap, this`revokeMap
      ensures Valid() && (At(lid), false) == SrvAcquire(old(At(lid)), client, seqNo)
      ensures forall l :: l != lid ==> At(l) == old(At(l))
    {
      var ls := allocation[lid];
      ghost var x := Get(clientLockSeq, ls.client, lid);
      ColumnGet(clientLockSeq, client, lid);
      ColumnGet(clientLockSeq, ls.client, lid);
      SetColumn(clientLockSeq, ls.client, lid, x);
      SetColumn(revokeMap, ls.client, lid, x);
      AddRetryRequest(lid, client);
      AddRevokeRequest(ls.client, lid);
    }

    /** False where the source stops: it dereferences the lock's record and asserts that a match is allocated. */
    method Release(client: Client, lid: Lid, seqNo: nat) returns (ok: bool)
      requires Valid()
      modifies this
      ensures ok <==> ReleaseIsSafe(old(At(lid)), client, seqNo)
      ensures Valid() && At(lid) == if ok then SrvRelease(old(At(lid)), client, seqNo) else old(At(lid))
      ensures forall l :: l != lid ==> At(l) == old(At(l))
      ensures hasRelease == old(hasRelease) + if Holds(old(At(lid)), client, seqNo) then 1 else 0
    {
      if lid !in allocation {
        return false;
      }
      var ls := allocation[lid];
      if seqNo == ls.seqNo && client == ls.client {
        if !ls.isAllocated {
          return false;
        }
        allocation := allocation[lid := LockStatus(false, ls.client, 0)];
        hasRelease := hasRelease + 1;
      }
      ok := true;
    }

    /** The revoker's region: take all queued revokes. */
    method TakeRevokes() returns (taken: Table)
      requires Valid()
      modifies this`revokeMap
      ensures Valid() && taken == old(revokeMap) && forall l :: At(l) == old(At(l)).(revokeQ := map[])
    {
      taken := revokeMap;
      revokeMap := map[];
    }

    /** The retryer's region, entered when a release is pending: take all waiting clients. */
    method TakeRetries() returns (taken: map<Lid, set<Client>>)
      requires Valid() && hasRelease > 0
      modifies this`retryMap, this`hasRelease
      ensures Valid() && taken == old(retryMap) && hasRelease == old(hasRelease) - 1
      ensures forall l :: At(l) == old(At(l)).(retryQ := {})
    {
      taken := retryMap;
      retryMap := map[];
      hasRelease := hasRelease - 1;
    }
  }
}
