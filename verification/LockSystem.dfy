/** One lock, one server, any number of clients and threads. Requests and replies stay on the network forever,
    so they may be lost, delayed, duplicated and reordered; a revoke stays until it is delivered. */
module LockSystem {
  import opened Wrappers
  import opened LockSpec

  /** A thread of a client: outside, waiting for the server's answer, waiting to ask again, or inside the lock. */
  datatype Thr = Idle | Calling | Waiting | Holding

  /** The client's releaser thread while it serves this lock. */
  datatype Rel = Resting | Picked | Flushed | Sent

  datatype Cli = Cli(lock: Lock, thr: map<Thread, Thr>, rel: Rel)

  datatype Sys = Sys(
    srv: Srv,
    cli: map<Client, Cli>,
    acqReq: set<(Client, nat)>,
    acqRep: set<(Client, nat, bool)>,
    relReq: set<(Client, nat)>,
    relRep: set<(Client, nat)>,
    revOut: set<(Client, nat)>,        // revoke RPCs the server is sending
    retOut: set<Client>,               // retry RPCs the server is sending
    demanded: set<(Client, nat)>)      // grants because of which some client was told RETRY

  datatype Step =
    | TryAcquire(c: Client, t: Thread)          // NONE -> ACQUIRING and ask the server
    | TakeFree(c: Client, t: Thread)            // FREE -> LOCKED
    | ServeAcquire(c: Client, x: nat)
    | RecvOk(c: Client, t: Thread)
    | RecvRetry(c: Client, t: Thread)
    | AskAgain(c: Client, t: Thread)
    | Release(c: Client, t: Thread)
    | TakeRevokes                               // the revoker thread's snapshot
    | DeliverRevoke(c: Client, x: nat, again: bool)
    | TakeRetries
    | DeliverRetry(c: Client)
    | Pick(c: Client, x: nat)                   // the releaser finds the lock RELEASING at the snapshot's number
    | Flush(c: Client)                          // dorelease
    | SendRelease(c: Client)
    | ServeRelease(c: Client, x: nat)
    | GiveBack(c: Client)
    | Purge(c: Client)

  ghost predicate Init(s: Sys) {
    && s.srv == EmptySrv()
    && (forall c :: c in s.cli ==> s.cli[c].lock == NewLock() && s.cli[c].rel == Resting
                                   && forall t :: t in s.cli[c].thr ==> s.cli[c].thr[t] == Idle)
    && s.acqReq == {} && s.acqRep == {} && s.relReq == {} && s.relRep == {} && s.revOut == {} && s.retOut == {}
    && s.demanded == {}
  }

  predicate ThreadIs(s: Sys, c: Client, t: Thread, x: Thr) {
    c in s.cli && t in s.cli[c].thr && s.cli[c].thr[t] == x
  }

  predicate Enabled(s: Sys, st: Step) {
    match st
    case TryAcquire(c, t) => ThreadIs(s, c, t, Idle) && s.cli[c].lock.status == NONE
    case TakeFree(c, t) => ThreadIs(s, c, t, Idle) && s.cli[c].lock.status == FREE
    case ServeAcquire(c, x) => (c, x) in s.acqReq
    case RecvOk(c, t) => ThreadIs(s, c, t, Calling) && (c, s.cli[c].lock.seqNum, true) in s.acqRep
    case RecvRetry(c, t) => ThreadIs(s, c, t, Calling) && (c, s.cli[c].lock.seqNum, false) in s.acqRep
    case AskAgain(c, t) => ThreadIs(s, c, t, Waiting)
    case Release(c, t) => ThreadIs(s, c, t, Holding)
    case TakeRevokes => true
    case DeliverRevoke(c, x, again) => (c, x) in s.revOut && c in s.cli
    case TakeRetries => true
    case DeliverRetry(c) => c in s.retOut && c in s.cli
    case Pick(c, x) =>
      c in s.cli && s.cli[c].rel == Resting && DueForRelease(s.cli[c].lock, x)
    case Flush(c) => c in s.cli && s.cli[c].rel == Picked
    case SendRelease(c) => c in s.cli && s.cli[c].rel == Flushed
    case ServeRelease(c, x) => (c, x) in s.relReq && s.srv.alloc.Some?
    case GiveBack(c) => c in s.cli && s.cli[c].rel == Sent && (c, s.cli[c].lock.seqNum) in s.relRep
    case Purge(c) => c in s.cli
  }

  function WithCli(s: Sys, c: Client, k: Cli): Sys {
    s.(cli := s.cli[c := k])
  }

  function WithLock(s: Sys, c: Client, lock: Lock): Sys
    requires c in s.cli
  {
    WithCli(s, c, s.cli[c].(lock := lock))
  }

  function WithThread(s: Sys, c: Client, t: Thread, x: Thr, lock: Lock): Sys
    requires c in s.cli
  {
    WithCli(s, c, s.cli[c].(thr := s.cli[c].thr[t := x], lock := lock))
  }

  function DoServeAcquire(s: Sys, c: Client, x: nat): Sys {
    var (v, ok) := SrvAcquire(s.srv, c, x);
    s.(srv := v, acqRep := s.acqRep + {(c, x, ok)},
       demanded := if ok || s.srv.alloc.None? then s.demanded
                   else s.demanded + {(s.srv.alloc.value.client, s.srv.alloc.value.seqNo)})
  }

  function Queued(q: map<Client, nat>): set<(Client, nat)> {
    set c | c in q :: (c, q[c])
  }

  function DoDeliverRevoke(s: Sys, c: Client, x: nat, again: bool): Sys
    requires c in s.cli
  {
    WithLock(s, c, Revoked(s.cli[c].lock, x)).(revOut := if again then s.revOut else s.revOut - {(c, x)})
  }

  function Apply(s: Sys, st: Step): Sys
    requires Enabled(s, st)
  {
    match st
    case TryAcquire(c, t) =>
      WithThread(s, c, t, Calling, s.cli[c].lock.(status := ACQUIRING))
        .(acqReq := s.acqReq + {(c, s.cli[c].lock.seqNum)})
    case TakeFree(c, t) => WithThread(s, c, t, Holding, s.cli[c].lock.(status := LOCKED))
    case ServeAcquire(c, x) => DoServeAcquire(s, c, x)
    case RecvOk(c, t) => WithThread(s, c, t, Holding, s.cli[c].lock.(status := LOCKED))
    case RecvRetry(c, t) => WithThread(s, c, t, Waiting, s.cli[c].lock)
    case AskAgain(c, t) =>
      WithThread(s, c, t, Calling, s.cli[c].lock.(retry := false)).(acqReq := s.acqReq + {(c, s.cli[c].lock.seqNum)})
    case Release(c, t) => WithThread(s, c, t, Idle, Unlocked(s.cli[c].lock))
    case TakeRevokes => s.(srv := s.srv.(revokeQ := map[]), revOut := s.revOut + Queued(s.srv.revokeQ))
    case DeliverRevoke(c, x, again) => DoDeliverRevoke(s, c, x, again)
    case TakeRetries => s.(srv := s.srv.(retryQ := {}), retOut := s.retOut + s.srv.retryQ)
    case DeliverRetry(c) => WithLock(s, c, s.cli[c].lock.(retry := true)).(retOut := s.retOut - {c})
    case Pick(c, x) => WithCli(s, c, s.cli[c].(rel := Picked))
    case Flush(c) => WithCli(s, c, s.cli[c].(rel := Flushed))
    case SendRelease(c) => WithCli(s, c, s.cli[c].(rel := Sent)).(relReq := s.relReq + {(c, s.cli[c].lock.seqNum)})
    case ServeRelease(c, x) => s.(srv := SrvRelease(s.srv, c, x), relRep := s.relRep + {(c, x)})
    case GiveBack(c) => WithCli(s, c, s.cli[c].(rel := Resting, lock := GivenBack(s.cli[c].lock)))
    case Purge(c) => WithLock(s, c, Purged(s.cli[c].lock))
  }

  ghost predicate Runs(s: Sys, steps: seq<Step>, t: Sys)
    decreases |steps|
  {
    if |steps| == 0 then s == t
    else Enabled(s, steps[0]) && Runs(Apply(s, steps[0]), steps[1..], t)
  }

  // ---- the invariant ----

  /** c owns the lock and has not asked the server to take it back. */
  predicate Owns(k: Cli) {
    k.lock.status == FREE || k.lock.status == LOCKED || (k.lock.status == RELEASING && k.rel != Sent)
  }

  /** Client k's own fields agree with each other. */
  ghost predicate LocalOk(k: Cli) {
    && k.lock.seqNum >= 1
    && (k.rel != Resting ==> k.lock.status == RELEASING)
    && (k.lock.status == FREE ==> k.lock.revoke != Some(k.lock.seqNum))
    && (k.lock.status == RELEASING ==> k.lock.revoke == Some(k.lock.seqNum))
    && (k.lock.revoke.Some? ==> k.lock.revoke.value <= k.lock.seqNum)
    && (forall t, u :: t in k.thr && u in k.thr && k.thr[t] != Idle && k.thr[u] != Idle ==> t == u)
    && (forall t :: t in k.thr && k.thr[t] == Holding ==> k.lock.status == LOCKED)
    && (forall t :: t in k.thr && (k.thr[t] == Calling || k.thr[t] == Waiting) ==> k.lock.status == ACQUIRING)
    && (k.lock.status == LOCKED ==> exists t :: t in k.thr && k.thr[t] == Holding)
    && (k.lock.status == ACQUIRING ==> exists t :: t in k.thr && (k.thr[t] == Calling || k.thr[t] == Waiting))
  }

  /** Client c and the server agree on who holds the lock. */
  ghost predicate GrantOk(s: Sys, c: Client)
    requires c in s.cli
  {
    var k := s.cli[c];
    var q, sq := k.lock.seqNum, SeqOf(s.srv, c);
    && q - 1 <= sq <= q
    && (k.lock.status == NONE ==> sq < q)
    && (k.lock.status == FREE || k.lock.status == LOCKED || k.lock.status == RELEASING ==> sq == q)
    && (sq == q && k.rel != Sent ==> Holds(s.srv, c, q))
  }

  ghost predicate SrvOk(s: Sys) {
    && (s.srv.alloc.Some? && s.srv.alloc.value.isAllocated ==>
          var ls := s.srv.alloc.value;
          ls.client in s.cli && ls.seqNo >= 1 && SeqOf(s.srv, ls.client) == ls.seqNo
          && s.cli[ls.client].lock.seqNum == ls.seqNo)
    && (s.srv.alloc.Some? && !s.srv.alloc.value.isAllocated ==> s.srv.alloc.value.seqNo == 0)
    && (forall c {:trigger SeqOf(s.srv, c)} :: s.srv.alloc.None? || c !in s.cli ==> SeqOf(s.srv, c) == 0)
    && (forall c :: c in s.srv.revokeQ ==> c in s.cli && 1 <= s.srv.revokeQ[c] <= SeqOf(s.srv, c))
  }

  ghost predicate MsgsOk(s: Sys) {
    && (forall c, x :: (c, x) in s.acqReq ==> c in s.cli && 1 <= x <= s.cli[c].lock.seqNum
                                              && (x == s.cli[c].lock.seqNum ==> s.cli[c].lock.status != NONE))
    && (forall c, x :: (c, x, true) in s.acqRep ==> c in s.cli && x <= SeqOf(s.srv, c))
    && (forall c, x :: (c, x) in s.relReq ==> c in s.cli && 1 <= x <= SeqOf(s.srv, c)
                                              && (x == s.cli[c].lock.seqNum ==> s.cli[c].rel == Sent))
    && (forall c, x :: (c, x) in s.relRep ==> (c, x) in s.relReq && !Holds(s.srv, c, x))
    && (forall c, x :: (c, x) in s.revOut ==> c in s.cli && 1 <= x <= SeqOf(s.srv, c))
    && (forall c, x :: (c, x) in s.demanded ==> x <= SeqOf(s.srv, c))
  }

  /** A revoke for grant (c, x) is on its way to c or has arrived. */
  predicate RevokePending(s: Sys, c: Client, x: nat) {
    || (c in s.srv.revokeQ && s.srv.revokeQ[c] == x)
    || (c, x) in s.revOut
    || (c in s.cli && s.cli[c].lock.revoke == Some(x))
  }

  ghost predicate DemandsOk(s: Sys) {
    forall c, x :: (c, x) in s.demanded && Holds(s.srv, c, x) ==> RevokePending(s, c, x)
  }

  ghost predicate Inv(s: Sys) {
    && (forall c {:trigger GrantOk(s, c)} :: c in s.cli ==> GrantOk(s, c))
    && (forall c {:trigger LocalOk(s.cli[c])} :: c in s.cli ==> LocalOk(s.cli[c]))
    && SrvOk(s) && MsgsOk(s) && DemandsOk(s)
  }

  lemma InitOk(s: Sys)
    requires Init(s)
    ensures Inv(s)
  {
  }

  predicate ThreadStep(st: Step) {
    st.TryAcquire? || st.TakeFree? || st.RecvOk? || st.RecvRetry? || st.AskAgain? || st.Release?
  }

  /** Steps of a client's threads keep that client's fields in order. */
  lemma ThreadLocalKept(s: Sys, st: Step)
    requires Enabled(s, st) && ThreadStep(st) && LocalOk(s.cli[st.c])
    ensures LocalOk(Apply(s, st).cli[st.c])
  {
    var k, l := s.cli[st.c], Apply(s, st).cli[st.c];
    assert l.thr == k.thr[st.t := l.thr[st.t]];
    assert st.t in l.thr;
  }

  /** So do the other steps. */
  lemma OtherLocalKept(s: Sys, st: Step, c: Client)
    requires c in s.cli && LocalOk(s.cli[c]) && Enabled(s, st) && !ThreadStep(st)
    ensures c in Apply(s, st).cli && LocalOk(Apply(s, st).cli[c])
  {
    hide SrvAcquire, SrvRelease;
    assert Apply(s, st).cli[c].thr == s.cli[c].thr;
  }

  lemma LocalKept(s: Sys, st: Step, c: Client)
    requires c in s.cli && LocalOk(s.cli[c]) && Enabled(s, st)
    ensures c in Apply(s, st).cli && LocalOk(Apply(s, st).cli[c])
  {
    hide LocalOk, SrvAcquire, SrvRelease;
    if ThreadStep(st) {
      if st.c == c {
        ThreadLocalKept(s, st);
      }
    } else {
      OtherLocalKept(s, st, c);
    }
  }

  predicate ServerStep(st: Step) {
    st.ServeAcquire? || st.ServeRelease?
  }

  lemma GrantKept(s: Sys, st: Step, c: Client)
    requires Inv(s) && Enabled(s, st) && !ServerStep(st) && c in s.cli
    ensures GrantOk(Apply(s, st), c)
  {
    assert GrantOk(s, c) && LocalOk(s.cli[c]);
  }

  lemma SrvKept(s: Sys, st: Step)
    requires Inv(s) && Enabled(s, st) && !ServerStep(st)
    ensures SrvOk(Apply(s, st))
  {
    var t := Apply(s, st);
    if s.srv.alloc.Some? && s.srv.alloc.value.isAllocated {
      assert GrantOk(s, s.srv.alloc.value.client) && LocalOk(s.cli[s.srv.alloc.value.client]);
    }
    forall c | t.srv.alloc.None? || c !in t.cli
      ensures SeqOf(t.srv, c) == 0
    {
      assert SeqOf(s.srv, c) == 0;
    }
    forall c | c in t.srv.revokeQ
      ensures c in t.cli && 1 <= t.srv.revokeQ[c] <= SeqOf(t.srv, c)
    {
    }
  }

  lemma ThreadMsgsKept(s: Sys, st: Step)
    requires Inv(s) && Enabled(s, st) && ThreadStep(st)
    ensures MsgsOk(Apply(s, st))
  {
    hide DemandsOk, SrvOk, SrvAcquire, SrvRelease;
    assert GrantOk(s, st.c) && LocalOk(s.cli[st.c]);
  }

  lemma ReleaserMsgsKept(s: Sys, st: Step)
    requires Inv(s) && Enabled(s, st) && (st.Pick? || st.Flush? || st.SendRelease? || st.GiveBack? || st.Purge?)
    ensures MsgsOk(Apply(s, st))
  {
    hide DemandsOk, SrvOk, SrvAcquire, SrvRelease;
    assert GrantOk(s, st.c) && LocalOk(s.cli[st.c]);
  }

  lemma RevokeMsgsKept(s: Sys, st: Step)
    requires SrvOk(s) && MsgsOk(s) && Enabled(s, st) && (st.TakeRevokes? || st.DeliverRevoke?)
    ensures MsgsOk(Apply(s, st))
  {
    hide SrvAcquire, SrvRelease;
  }

  lemma RetryMsgsKept(s: Sys, st: Step)
    requires MsgsOk(s) && Enabled(s, st) && (st.TakeRetries? || st.DeliverRetry?)
    ensures MsgsOk(Apply(s, st))
  {
    hide SrvAcquire, SrvRelease;
  }

  lemma MsgsKept(s: Sys, st: Step)
    requires Inv(s) && Enabled(s, st) && !ServerStep(st)
    ensures MsgsOk(Apply(s, st))
  {
    hide DemandsOk, LocalOk, GrantOk, SrvOk, MsgsOk, Apply;
    if ThreadStep(st) {
      ThreadMsgsKept(s, st);
    } else if st.TakeRevokes? || st.DeliverRevoke? {
      RevokeMsgsKept(s, st);
    } else if st.TakeRetries? || st.DeliverRetry? {
      RetryMsgsKept(s, st);
    } else {
      ReleaserMsgsKept(s, st);
    }
  }

  lemma DemandsKept(s: Sys, st: Step)
    requires Inv(s) && Enabled(s, st) && !ServerStep(st)
    ensures DemandsOk(Apply(s, st))
  {
    var t := Apply(s, st);
    forall c, x | (c, x) in t.demanded && Holds(t.srv, c, x)
      ensures RevokePending(t, c, x)
    {
      assert RevokePending(s, c, x);
      assert GrantOk(s, c) && LocalOk(s.cli[c]);
      if c in s.srv.revokeQ && s.srv.revokeQ[c] == x {
        assert (c, x) in Queued(s.srv.revokeQ);
      }
    }
  }

  // ---- the server's handlers ----

  /** The server grants a lock only for a sequence number above every earlier grant to that client, and only
      to a client that is waiting for it. */
  lemma GrantIsNew(s: Sys, c: Client, x: nat)
    requires Inv(s) && (c, x) in s.acqReq
    ensures var (v, ok) := SrvAcquire(s.srv, c, x);
            && (ok && x > SeqOf(s.srv, c) ==>
                  && c in s.cli && s.cli[c].lock.seqNum == x && s.cli[c].lock.status == ACQUIRING
                  && Holds(v, c, x) && SeqOf(v, c) == x)
            && (!(ok && x > SeqOf(s.srv, c)) ==> (forall d :: SeqOf(v, d) == SeqOf(s.srv, d))
                                                  && (forall d, y: nat :: Holds(v, d, y) <==> Holds(s.srv, d, y)))
  {
    assert GrantOk(s, c) && LocalOk(s.cli[c]);
  }

  lemma ServeAcquireGrants(s: Sys, c: Client, x: nat, d: Client)
    requires Inv(s) && (c, x) in s.acqReq && d in s.cli
    ensures GrantOk(DoServeAcquire(s, c, x), d)
  {
    GrantIsNew(s, c, x);
    assert GrantOk(s, c) && GrantOk(s, d) && LocalOk(s.cli[d]);
  }

  lemma ServeAcquireSrv(s: Sys, c: Client, x: nat)
    requires Inv(s) && (c, x) in s.acqReq
    ensures SrvOk(DoServeAcquire(s, c, x))
  {
    var t := DoServeAcquire(s, c, x);
    GrantIsNew(s, c, x);
    assert GrantOk(s, c);
    forall d | t.srv.alloc.None? || d !in t.cli
      ensures SeqOf(t.srv, d) == 0
    {
      assert SeqOf(s.srv, d) == 0;
    }
  }

  lemma ServeAcquireMsgs(s: Sys, c: Client, x: nat)
    requires Inv(s) && (c, x) in s.acqReq
    ensures MsgsOk(DoServeAcquire(s, c, x))
  {
    hide DemandsOk, LocalOk;
    var t := DoServeAcquire(s, c, x);
    GrantIsNew(s, c, x);
    forall d
      ensures SeqOf(s.srv, d) <= SeqOf(t.srv, d)
    {
    }
  }

  lemma ServeAcquireDemands(s: Sys, c: Client, x: nat)
    requires Inv(s) && (c, x) in s.acqReq
    ensures DemandsOk(DoServeAcquire(s, c, x))
  {
  }

  /** A release frees the lock only when it names the current grant, and then the record was allocated. */
  lemma ReleaseFreesOnlyItsGrant(s: Sys, c: Client, x: nat)
    requires Inv(s) && (c, x) in s.relReq && s.srv.alloc.Some?
    ensures var ls, v := s.srv.alloc.value, SrvRelease(s.srv, c, x);
            && (x == ls.seqNo && c == ls.client ==> ls.isAllocated)
            && !Holds(v, c, x)
            && (forall d, y: nat :: (d, y) != (c, x) ==> (Holds(v, d, y) <==> Holds(s.srv, d, y)))
            && v.seqOf == s.srv.seqOf && v.revokeQ == s.srv.revokeQ
  {
  }

  lemma ServeReleaseKept(s: Sys, c: Client, x: nat)
    requires Inv(s) && (c, x) in s.relReq && s.srv.alloc.Some?
    ensures Inv(Apply(s, ServeRelease(c, x)))
  {
    var t := Apply(s, ServeRelease(c, x));
    ReleaseFreesOnlyItsGrant(s, c, x);
    forall d
      ensures SeqOf(t.srv, d) == SeqOf(s.srv, d)
    {
    }
    forall d | d in t.cli
      ensures GrantOk(t, d) && LocalOk(t.cli[d])
    {
      assert GrantOk(s, d) && LocalOk(s.cli[d]);
    }
    forall d, y | (d, y) in t.demanded && Holds(t.srv, d, y)
      ensures RevokePending(t, d, y)
    {
      assert RevokePending(s, d, y);
    }
  }

  /** Every step keeps the invariant. */
  lemma StepKept(s: Sys, st: Step)
    requires Inv(s) && Enabled(s, st)
    ensures Inv(Apply(s, st))
  {
    hide DemandsOk, SrvOk, MsgsOk, LocalOk, GrantOk, SrvAcquire, SrvRelease;
    var t := Apply(s, st);
    match st {
      case ServeAcquire(c, x) =>
        ServeAcquireSrv(s, c, x);
        ServeAcquireMsgs(s, c, x);
        ServeAcquireDemands(s, c, x);
        forall d | d in t.cli
          ensures GrantOk(t, d) && LocalOk(t.cli[d])
        {
          ServeAcquireGrants(s, c, x, d);
          assert LocalOk(s.cli[d]);
        }
      case ServeRelease(c, x) => ServeReleaseKept(s, c, x);
      case _ => OtherStepKept(s, st);
    }
  }

  lemma OtherStepKept(s: Sys, st: Step)
    requires Inv(s) && Enabled(s, st) && !ServerStep(st)
    ensures Inv(Apply(s, st))
  {
    var t := Apply(s, st);
    SrvKept(s, st);
    MsgsKept(s, st);
    DemandsKept(s, st);
    forall d | d in t.cli
      ensures GrantOk(t, d) && LocalOk(t.cli[d])
    {
      assert LocalOk(s.cli[d]);
      GrantKept(s, st, d);
      LocalKept(s, st, d);
    }
  }

  lemma {:induction false} RunsKept(s: Sys, steps: seq<Step>, t: Sys)
    requires Inv(s) && Runs(s, steps, t)
    ensures Inv(t)
    decreases |steps|
  {
    if |steps| > 0 {
      StepKept(s, steps[0]);
      RunsKept(Apply(s, steps[0]), steps[1..], t);
    }
  }
}
