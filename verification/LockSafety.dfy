/** The main results about the lock protocol, over every run of every number of clients and threads. */
module LockSafety {
  import opened Wrappers
  import opened LockSpec
  import opened LockSystem

  lemma Reachable(s0: Sys, steps: seq<Step>, s: Sys)
    requires Init(s0) && Runs(s0, steps, s)
    ensures Inv(s)
  {
    InitOk(s0);
    RunsKept(s0, steps, s);
  }

  /** A client that owns the lock is the one the server's record names, with that client's number. */
  lemma OwnerIsRecorded(s0: Sys, steps: seq<Step>, s: Sys, c: Client)
    requires Init(s0) && Runs(s0, steps, s) && c in s.cli && Owns(s.cli[c])
    ensures Holds(s.srv, c, s.cli[c].lock.seqNum)
  {
    Reachable(s0, steps, s);
    assert GrantOk(s, c) && LocalOk(s.cli[c]);
  }

  /** Mutual exclusion between clients: no two of them have the lock FREE, LOCKED, or RELEASING and not yet sent. */
  lemma MutualExclusion(s0: Sys, steps: seq<Step>, s: Sys, c: Client, d: Client)
    requires Init(s0) && Runs(s0, steps, s) && c in s.cli && d in s.cli && Owns(s.cli[c]) && Owns(s.cli[d])
    ensures c == d
  {
    OwnerIsRecorded(s0, steps, s, c);
    OwnerIsRecorded(s0, steps, s, d);
  }

  /** Mutual exclusion between threads: at most one thread of all clients is between acquire and release. */
  lemma OneThreadInside(s0: Sys, steps: seq<Step>, s: Sys, c: Client, t: Thread, d: Client, u: Thread)
    requires Init(s0) && Runs(s0, steps, s) && ThreadIs(s, c, t, Holding) && ThreadIs(s, d, u, Holding)
    ensures c == d && t == u
  {
    Reachable(s0, steps, s);
    assert LocalOk(s.cli[c]) && LocalOk(s.cli[d]);
    MutualExclusion(s0, steps, s, c, d);
  }

  /** `release` finds the lock LOCKED, so its assertion holds. */
  lemma ReleaseFindsItLocked(s0: Sys, steps: seq<Step>, s: Sys, c: Client, t: Thread)
    requires Init(s0) && Runs(s0, steps, s) && ThreadIs(s, c, t, Holding)
    ensures s.cli[c].lock.status == LOCKED
  {
    Reachable(s0, steps, s);
    assert LocalOk(s.cli[c]);
  }

  /** Whatever old or repeated OK a waiting client receives, the server's record names it at that moment. */
  lemma OkMeansGranted(s0: Sys, steps: seq<Step>, s: Sys, c: Client, t: Thread)
    requires Init(s0) && Runs(s0, steps, s) && Enabled(s, RecvOk(c, t))
    ensures Holds(s.srv, c, s.cli[c].lock.seqNum)
  {
    Reachable(s0, steps, s);
    assert GrantOk(s, c) && LocalOk(s.cli[c]);
  }

  // ---- revokes ----

  /** Steps only add demands and never lower a sequence number. */
  lemma DemandsGrow(s: Sys, st: Step)
    requires Inv(s) && Enabled(s, st)
    ensures s.demanded <= Apply(s, st).demanded
    ensures forall c :: SeqOf(s.srv, c) <= SeqOf(Apply(s, st).srv, c)
  {
  }

  lemma {:induction false} DemandsGrowOverRuns(s: Sys, steps: seq<Step>, t: Sys)
    requires Inv(s) && Runs(s, steps, t)
    ensures s.demanded <= t.demanded
    ensures forall c :: SeqOf(s.srv, c) <= SeqOf(t.srv, c)
    decreases |steps|
  {
    if |steps| > 0 {
      StepKept(s, steps[0]);
      DemandsGrow(s, steps[0]);
      DemandsGrowOverRuns(Apply(s, steps[0]), steps[1..], t);
    }
  }

  /** No lost revoke: once some client was told RETRY because of grant (h, x), then as long as the server's record
      still shows that grant, a revoke for it is queued, being sent, or recorded at h. */
  lemma NoLostRevoke(s0: Sys, early: seq<Step>, s: Sys, c: Client, y: nat, later: seq<Step>, t: Sys, h: Client, x: nat)
    requires Init(s0) && Runs(s0, early, s)
    requires Enabled(s, ServeAcquire(c, y)) && !SrvAcquire(s.srv, c, y).1 && Holds(s.srv, h, x)
    requires Runs(Apply(s, ServeAcquire(c, y)), later, t) && Holds(t.srv, h, x)
    ensures RevokePending(t, h, x)
  {
    Reachable(s0, early, s);
    var s1 := Apply(s, ServeAcquire(c, y));
    StepKept(s, ServeAcquire(c, y));
    assert (h, x) in s1.demanded;
    DemandsGrowOverRuns(s1, later, t);
    RunsKept(s1, later, t);
  }

  /** The wake-up of client c is waiting at the server, being sent, or recorded at c. */
  predicate RetryPending(s: Sys, c: Client) {
    c in s.srv.retryQ || c in s.retOut || (c in s.cli && s.cli[c].lock.retry)
  }

  lemma RetryStays(s: Sys, st: Step, c: Client)
    requires Inv(s) && Enabled(s, st) && RetryPending(s, c) && !(st.AskAgain? && st.c == c)
    ensures RetryPending(Apply(s, st), c)
  {
  }

  lemma {:induction false} RetryStaysOverRuns(s: Sys, steps: seq<Step>, t: Sys, c: Client)
    requires Inv(s) && Runs(s, steps, t) && RetryPending(s, c)
    requires forall st :: st in steps && st.AskAgain? ==> st.c != c
    ensures RetryPending(t, c)
    decreases |steps|
  {
    if |steps| > 0 {
      StepKept(s, steps[0]);
      assert steps[0] in steps && forall st :: st in steps[1..] ==> st in steps;
      RetryStays(s, steps[0], c);
      RetryStaysOverRuns(Apply(s, steps[0]), steps[1..], t, c);
    }
  }

  /** No lost retry: once c was told RETRY, and until it asks again, a wake-up for it is waiting at the server, being
      sent, or recorded at c. */
  lemma NoLostRetry(s0: Sys, early: seq<Step>, s: Sys, c: Client, x: nat, later: seq<Step>, t: Sys)
    requires Init(s0) && Runs(s0, early, s) && Enabled(s, ServeAcquire(c, x)) && !SrvAcquire(s.srv, c, x).1
    requires Runs(Apply(s, ServeAcquire(c, x)), later, t) && forall st :: st in later && st.AskAgain? ==> st.c != c
    ensures RetryPending(t, c)
  {
    Reachable(s0, early, s);
    StepKept(s, ServeAcquire(c, x));
    RetryStaysOverRuns(Apply(s, ServeAcquire(c, x)), later, t, c);
  }

  /** A recorded revoke of the current grant never leaves the lock FREE, and a client gives the lock back only with
      such a revoke recorded. */
  lemma RevokeIsObeyed(s0: Sys, steps: seq<Step>, s: Sys, c: Client)
    requires Init(s0) && Runs(s0, steps, s) && c in s.cli
    ensures s.cli[c].lock.revoke == Some(s.cli[c].lock.seqNum) ==> s.cli[c].lock.status != FREE
    ensures s.cli[c].lock.status == RELEASING ==> s.cli[c].lock.revoke == Some(s.cli[c].lock.seqNum)
  {
    Reachable(s0, steps, s);
    assert LocalOk(s.cli[c]);
  }

  /** Every revoke under way was caused by a RETRY. */
  ghost predicate NoSpurious(s: Sys) {
    forall c, x: nat {:trigger RevokePending(s, c, x)} :: RevokePending(s, c, x) ==> (c, x) in s.demanded
  }

  lemma NoSpuriousKept(s: Sys, st: Step)
    requires Inv(s) && NoSpurious(s) && Enabled(s, st)
    ensures NoSpurious(Apply(s, st))
  {
    var t := Apply(s, st);
    forall c, x: nat | RevokePending(t, c, x)
      ensures (c, x) in t.demanded
    {
      if st.ServeAcquire? {
        assert RevokePending(s, c, x) || (c, x) in t.demanded;
      } else {
        assert st.DeliverRevoke? ==> RevokePending(s, st.c, st.x);
        assert RevokePending(s, c, x);
      }
    }
  }

  lemma {:induction false} NoSpuriousOverRuns(s: Sys, steps: seq<Step>, t: Sys)
    requires Inv(s) && NoSpurious(s) && Runs(s, steps, t)
    ensures NoSpurious(t)
    decreases |steps|
  {
    if |steps| > 0 {
      StepKept(s, steps[0]);
      NoSpuriousKept(s, steps[0]);
      NoSpuriousOverRuns(Apply(s, steps[0]), steps[1..], t);
    }
  }

  /** A client gives a grant back only if some client was told RETRY because of exactly that grant. */
  lemma GivenBackOnlyOnDemand(s0: Sys, steps: seq<Step>, s: Sys, c: Client)
    requires Init(s0) && Runs(s0, steps, s) && c in s.cli && s.cli[c].lock.status == RELEASING
    ensures (c, s.cli[c].lock.seqNum) in s.demanded
  {
    RevokeIsObeyed(s0, steps, s, c);
    InitOk(s0);
    NoSpuriousOverRuns(s0, steps, s);
    assert RevokePending(s, c, s.cli[c].lock.seqNum);
  }

  // ---- sequence numbers and the server's assertions ----

  predicate Grants(s: Sys, c: Client, x: nat) {
    (c, x) in s.acqReq && x > SeqOf(s.srv, c) && SrvAcquire(s.srv, c, x).1
  }

  /** The grants a client gets carry strictly increasing numbers. */
  lemma GrantsIncrease(s0: Sys, early: seq<Step>, s: Sys, c: Client, x: nat, later: seq<Step>, t: Sys, y: nat)
    requires Init(s0) && Runs(s0, early, s) && Grants(s, c, x)
    requires Runs(Apply(s, ServeAcquire(c, x)), later, t) && Grants(t, c, y)
    ensures x < y
  {
    Reachable(s0, early, s);
    GrantIsNew(s, c, x);
    StepKept(s, ServeAcquire(c, x));
    DemandsGrowOverRuns(Apply(s, ServeAcquire(c, x)), later, t);
  }

  /** A late or repeated request, with a number not above an earlier grant to its client, is answered OK and leaves the
      record, the queued revokes and the waiting clients as they were. */
  lemma LateAcquireIsHarmless(s0: Sys, early: seq<Step>, s: Sys, c: Client, x: nat, later: seq<Step>, t: Sys, y: nat)
    requires Init(s0) && Runs(s0, early, s) && Grants(s, c, x)
    requires Runs(Apply(s, ServeAcquire(c, x)), later, t) && Enabled(t, ServeAcquire(c, y)) && y <= x
    ensures var u := Apply(t, ServeAcquire(c, y));
            && u.acqRep == t.acqRep + {(c, y, true)} && u.srv.alloc == t.srv.alloc
            && u.srv.revokeQ == t.srv.revokeQ && u.srv.retryQ == t.srv.retryQ && u.demanded == t.demanded
  {
    Reachable(s0, early, s);
    GrantIsNew(s, c, x);
    StepKept(s, ServeAcquire(c, x));
    DemandsGrowOverRuns(Apply(s, ServeAcquire(c, x)), later, t);
    AcquireChanges(t.srv, c, y);
  }

  /** A release, however late or often it arrives, frees its own grant or nothing; and whenever it matches the record,
      the record is allocated, as the server asserts. */
  lemma LateReleaseIsHarmless(s0: Sys, steps: seq<Step>, s: Sys, c: Client, x: nat, d: Client, y: nat)
    requires Init(s0) && Runs(s0, steps, s) && Enabled(s, ServeRelease(c, x)) && (d, y) != (c, x)
    ensures Holds(Apply(s, ServeRelease(c, x)).srv, d, y) <==> Holds(s.srv, d, y)
    ensures s.srv.alloc.value.seqNo == x && s.srv.alloc.value.client == c ==> s.srv.alloc.value.isAllocated
    ensures c in s.cli && (Owns(s.cli[c]) ==> s.cli[c].lock.seqNum != x)
  {
    Reachable(s0, steps, s);
    ReleaseFreesOnlyItsGrant(s, c, x);
    assert GrantOk(s, c) && LocalOk(s.cli[c]);
  }

  /** The release handler never stops the server: it finds the record, and a match is allocated. */
  lemma ReleaseNeverStops(s0: Sys, steps: seq<Step>, s: Sys, c: Client, x: nat)
    requires Init(s0) && Runs(s0, steps, s) && (c, x) in s.relReq
    ensures ReleaseIsSafe(s.srv, c, x)
  {
    Reachable(s0, steps, s);
    assert SeqOf(s.srv, c) >= 1;
  }

  /** The releaser's test passes exactly for revoked grants. If it passes, the grant is the one the server's record
      shows, some client was told RETRY because of it, and no thread of this client holds or asks for the lock. If the
      lock is RELEASING, the entry in revokeMap passes it, so a snapshot taken then misses nothing. */
  lemma ReleaserPicksTheRevokedGrant(s0: Sys, steps: seq<Step>, s: Sys, c: Client, x: nat)
    requires Init(s0) && Runs(s0, steps, s) && c in s.cli
    ensures DueForRelease(s.cli[c].lock, x) <==> s.cli[c].lock.status == RELEASING && s.cli[c].lock.revoke == Some(x)
    ensures DueForRelease(s.cli[c].lock, x) ==>
              && (c, x) in s.demanded && (s.cli[c].rel != Sent ==> Holds(s.srv, c, x))
              && forall t :: t in s.cli[c].thr ==> s.cli[c].thr[t] == Idle
  {
    Reachable(s0, steps, s);
    assert GrantOk(s, c) && LocalOk(s.cli[c]);
    if s.cli[c].lock.status == RELEASING {
      GivenBackOnlyOnDemand(s0, steps, s, c);
    }
  }

  /** The assertion in add_Revoke_Request: the queued number never exceeds the holder's current one, and the number
      queued is the grant's. */
  lemma RevokeAssertionHolds(s0: Sys, steps: seq<Step>, s: Sys, h: Client, x: nat)
    requires Init(s0) && Runs(s0, steps, s) && Holds(s.srv, h, x)
    ensures SeqOf(s.srv, h) == x
    ensures h in s.srv.revokeQ ==> SeqOf(s.srv, h) >= s.srv.revokeQ[h]
  {
    Reachable(s0, steps, s);
  }
}
