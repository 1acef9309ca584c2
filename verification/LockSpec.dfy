/** One cached lock as values: what the server's handlers and the client's methods do to it. */
module LockSpec {
  import opened Wrappers

  type Client = int
  type Thread = nat

  // ---- the server's side ----

  datatype LockStatus = LockStatus(isAllocated: bool, client: Client, seqNo: nat)

  /** The parts of the server's maps that concern one lock. */
  datatype Srv = Srv(
    alloc: Option<LockStatus>,      // lockAllocationMap
    seqOf: map<Client, nat>,        // clientLockSeqMap
    revokeQ: map<Client, nat>,      // revokeMap
    retryQ: set<Client>)            // retryMap

  function EmptySrv(): Srv {
    Srv(None, map[], map[], {})
  }

  function SeqOf(s: Srv, c: Client): nat {
    if c in s.seqOf then s.seqOf[c] else 0
  }

  /** Reading a missing sequence number inserts 0. */
  function Touch(m: map<Client, nat>, c: Client): map<Client, nat> {
    if c in m then m else m[c := 0]
  }

  predicate Holds(s: Srv, c: Client, x: nat) {
    s.alloc.Some? && s.alloc.value == LockStatus(true, c, x)
  }

  predicate Held(s: Srv) {
    s.alloc.Some? && s.alloc.value.isAllocated
  }

  /** The acquire handler; true is OK, false is RETRY. */
  function SrvAcquire(s: Srv, c: Client, seqNo: nat): (Srv, bool) {
    if seqNo <= SeqOf(s, c) then (s.(seqOf := Touch(s.seqOf, c)), true)
    else
      var seen := if s.alloc.None? then s.seqOf[c := 0] else Touch(s.seqOf, c);
      var ls := if s.alloc.None? then LockStatus(false, c, 0) else s.alloc.value;
      if !ls.isAllocated then
        (s.(alloc := Some(LockStatus(true, c, seqNo)), seqOf := seen[c := seqNo]), true)
      else
        (s.(seqOf := Touch(seen, ls.client), retryQ := s.retryQ + {c},
            revokeQ := s.revokeQ[ls.client := SeqOf(s, ls.client)]), false)
  }

  /** The release handler; it dereferences the lock's record, so there must be one. */
  function SrvRelease(s: Srv, c: Client, seqNo: nat): Srv
    requires s.alloc.Some?
  {
    if seqNo == s.alloc.value.seqNo && c == s.alloc.value.client then s.(alloc := Some(LockStatus(false, c, 0))) else s
  }

  /** The lock has a record, and when the request matches it, it is allocated. */
  predicate ReleaseIsSafe(s: Srv, c: Client, seqNo: nat) {
    s.alloc.Some? && (seqNo == s.alloc.value.seqNo && c == s.alloc.value.client ==> s.alloc.value.isAllocated)
  }

  // ---- the client's side ----

  datatype Status = NONE | FREE | LOCKED | ACQUIRING | RELEASING

  /** What one client records about one lock. */
  datatype Lock = Lock(
    status: Status,
    seqNum: nat,
    revoke: Option<nat>,     // the lock's entry in revokeMap
    retry: bool)             // its entry in retryMap

  function NewLock(): Lock {
    Lock(NONE, 1, None, false)
  }

  /** The thread's `release`. */
  function Unlocked(k: Lock): Lock {
    if k.revoke == Some(k.seqNum) then k.(status := RELEASING) else k.(status := FREE)
  }

  /** The revoke handler. */
  function Revoked(k: Lock, seqNo: nat): Lock {
    if (k.revoke.None? || seqNo > k.revoke.value) && k.seqNum == seqNo then
      k.(revoke := Some(seqNo), status := if k.status == FREE then RELEASING else k.status)
    else k
  }

  /** The releaser's test on an entry of its snapshot of revokeMap, made after the snapshot was taken. */
  predicate DueForRelease(k: Lock, seqNo: nat) {
    k.seqNum == seqNo && k.status == RELEASING
  }

  /** The releaser after the server answered its release. */
  function GivenBack(k: Lock): Lock {
    k.(status := NONE, seqNum := k.seqNum + 1)
  }

  /** The releaser drops revoke entries of grants already given back. */
  function Purged(k: Lock): Lock {
    if k.revoke.Some? && k.revoke.value < k.seqNum then k.(revoke := None) else k
  }

  // ---- what the handlers do, from the record, the numbers and the queues ----

  /** The answer is RETRY if and only if the number is new and somebody holds the lock. */
  lemma AcquireExactlyWhen(s: Srv, c: Client, x: nat)
    ensures SrvAcquire(s, c, x).1 <==> !(x > SeqOf(s, c) && exists h, y :: Holds(s, h, y))
  {
    if Held(s) {
      assert Holds(s, s.alloc.value.client, s.alloc.value.seqNo);
    }
  }

  /** A number not above the last grant's changes nothing; a grant makes the record show it and queues nothing; a RETRY
      leaves the record and every number, and queues the client and a revoke of the holder's last grant. */
  lemma AcquireChanges(s: Srv, c: Client, x: nat)
    ensures var v := SrvAcquire(s, c, x).0;
            && (x <= SeqOf(s, c) ==> v.alloc == s.alloc && v.revokeQ == s.revokeQ && v.retryQ == s.retryQ)
            && (x > SeqOf(s, c) && !Held(s) ==> Holds(v, c, x) && v.revokeQ == s.revokeQ && v.retryQ == s.retryQ)
            && (x > SeqOf(s, c) && Held(s) ==>
                  && v.alloc == s.alloc && v.retryQ == s.retryQ + {c}
                  && v.revokeQ == s.revokeQ[s.alloc.value.client := SeqOf(s, s.alloc.value.client)])
            && forall d :: SeqOf(v, d) == if d == c && x > SeqOf(s, c) && !Held(s) then x
                                          else if d == c && s.alloc.None? && x > SeqOf(s, c) then 0 else SeqOf(s, d)
  {
  }

  /** A release frees the lock if and only if it names the record's grant, and changes nothing else. */
  lemma ReleaseExactlyWhen(s: Srv, c: Client, x: nat)
    requires Held(s)
    ensures Held(SrvRelease(s, c, x)) <==> !Holds(s, c, x)
    ensures SrvRelease(s, c, x) == s.(alloc := SrvRelease(s, c, x).alloc)
    ensures !Holds(s, c, x) ==> SrvRelease(s, c, x) == s
  {
  }

  /** Leaving hands the lock to the releaser if and only if this grant is revoked, and leaves it FREE otherwise. */
  lemma LeavingExactlyWhen(k: Lock)
    ensures Unlocked(k).status == if k.revoke == Some(k.seqNum) then RELEASING else FREE
    ensures Unlocked(k) == k.(status := Unlocked(k).status)
  {
  }

  /** A revoke is recorded if and only if it is of the current grant and none at least as new is; FREE becomes RELEASING
      exactly then, and nothing else changes. */
  lemma RevokeExactlyWhen(k: Lock, x: nat)
    requires k.revoke.Some? ==> k.revoke.value <= k.seqNum
    ensures Revoked(k, x).revoke == if x == k.seqNum then Some(x) else k.revoke
    ensures Revoked(k, x).status ==
            if k.status == FREE && x == k.seqNum && k.revoke != Some(x) then RELEASING else k.status
    ensures Revoked(k, x) == k.(revoke := Revoked(k, x).revoke, status := Revoked(k, x).status)
  {
  }

  /** The releaser forgets exactly the revokes of grants before the current one. */
  lemma PurgeExactlyWhen(k: Lock, x: nat)
    ensures Purged(k).revoke == Some(x) <==> k.revoke == Some(x) && x >= k.seqNum
    ensures Purged(k) == k.(revoke := Purged(k).revoke)
  {
  }
}
