/** Nothing gets stuck in the lock protocol: from every reachable state, whoever holds the lock and whatever is on its
    way, the steps of the protocol can bring the lock to any thread of any client. */
module LockProgress {
  import opened Wrappers
  import opened LockSpec
  import opened LockSystem

  // ---- requests under way ----

  /** A thread that waits for an answer has sent its request, and so has a releaser. */
  ghost predicate Asked(s: Sys) {
    && (forall c, t {:trigger ThreadIs(s, c, t, Calling)} ::
          ThreadIs(s, c, t, Calling) ==> (c, s.cli[c].lock.seqNum) in s.acqReq)
    && (forall c {:trigger s.cli[c].rel} ::
          c in s.cli && s.cli[c].rel == Sent ==> (c, s.cli[c].lock.seqNum) in s.relReq)
  }

  ghost predicate Good(s: Sys) {
    Inv(s) && Asked(s)
  }

  lemma AskedKept(s: Sys, st: Step)
    requires Good(s) && Enabled(s, st)
    ensures Asked(Apply(s, st))
  {
    hide SrvAcquire, SrvRelease, SrvOk, MsgsOk, DemandsOk, GrantOk;
    var u := Apply(s, st);
    forall c, t | ThreadIs(u, c, t, Calling)
      ensures (c, u.cli[c].lock.seqNum) in u.acqReq
    {
      assert LocalOk(s.cli[c]);
      assert ThreadIs(s, c, t, Calling) || st == TryAcquire(c, t) || st == AskAgain(c, t);
    }
    forall c | c in u.cli && u.cli[c].rel == Sent
      ensures (c, u.cli[c].lock.seqNum) in u.relReq
    {
      assert s.cli[c].rel == Sent || st == SendRelease(c);
    }
  }

  ghost predicate Reaches(s: Sys, u: Sys) {
    exists steps :: Runs(s, steps, u)
  }

  lemma Stay(s: Sys)
    ensures Reaches(s, s)
  {
    assert Runs(s, [], s);
  }

  lemma {:induction false} Append(s: Sys, steps: seq<Step>, u: Sys, more: seq<Step>, v: Sys)
    requires Runs(s, steps, u) && Runs(u, more, v)
    ensures Runs(s, steps + more, v)
    decreases |steps|
  {
    hide Enabled, Apply;
    if |steps| == 0 {
      assert steps + more == more;
    } else {
      Append(Apply(s, steps[0]), steps[1..], u, more, v);
      assert (steps + more)[1..] == steps[1..] + more;
    }
  }

  lemma Trans(s: Sys, u: Sys, v: Sys)
    requires Reaches(s, u) && Reaches(u, v)
    ensures Reaches(s, v)
  {
    var steps :| Runs(s, steps, u);
    var more :| Runs(u, more, v);
    Append(s, steps, u, more, v);
  }

  lemma Do(s: Sys, st: Step) returns (u: Sys)
    requires Good(s) && Enabled(s, st)
    ensures u == Apply(s, st) && Reaches(s, u) && Good(u)
  {
    u := Apply(s, st);
    StepKept(s, st);
    AskedKept(s, st);
    assert Runs(u, [], u);
    assert [st][1..] == [];
    assert Runs(s, [st], u);
  }

  /** Only client h has changed; requests stay on the network, and those who wait for a wake-up still do. */
  ghost predicate OnlyClient(s: Sys, u: Sys, h: Client) {
    && u.cli.Keys == s.cli.Keys && s.acqReq <= u.acqReq && s.srv.retryQ <= u.srv.retryQ
    && forall d {:trigger u.cli[d]} :: d in s.cli && d != h ==> u.cli[d] == s.cli[d]
  }

  // ---- giving back ----

  /** A revoked grant that no thread uses any more comes back to the server. */
  lemma GivesBack(s: Sys, h: Client) returns (u: Sys)
    requires Good(s) && h in s.cli && s.cli[h].lock.status == RELEASING
    ensures Reaches(s, u) && Good(u) && OnlyClient(s, u, h)
    ensures u.cli[h].lock == GivenBack(s.cli[h].lock) && u.cli[h].thr == s.cli[h].thr
    ensures Holds(s.srv, h, s.cli[h].lock.seqNum) ==> !Held(u.srv)
    decreases match s.cli[h].rel case Resting => 3 case Picked => 2 case Flushed => 1 case Sent => 0
  {
    hide Inv, SrvAcquire;
    match s.cli[h].rel {
      case Resting =>
        var w := Do(s, Pick(h, s.cli[h].lock.seqNum));
        u := GivesBack(w, h);
        Trans(s, w, u);
      case Picked =>
        var w := Do(s, Flush(h));
        u := GivesBack(w, h);
        Trans(s, w, u);
      case Flushed =>
        var w := Do(s, SendRelease(h));
        u := GivesBack(w, h);
        Trans(s, w, u);
      case Sent =>
        RecordIsThere(s, h);
        var w := Do(s, ServeRelease(h, s.cli[h].lock.seqNum));
        u := Do(w, GiveBack(h));
        Trans(s, w, u);
    }
  }

  lemma RecordIsThere(s: Sys, h: Client)
    requires Inv(s) && h in s.cli && s.cli[h].lock.status == RELEASING
    ensures s.srv.alloc.Some?
  {
    assert GrantOk(s, h) && LocalOk(s.cli[h]);
    assert SeqOf(s.srv, h) >= 1;
  }

  // ---- getting an answer ----

  predicate Asking(s: Sys, c: Client, t: Thread) {
    ThreadIs(s, c, t, Calling) || ThreadIs(s, c, t, Waiting)
  }

  /** A thread that asks can have its request at the server. */
  lemma Asks(s: Sys, c: Client, t: Thread) returns (u: Sys)
    requires Good(s) && Asking(s, c, t)
    ensures Reaches(s, u) && Good(u) && OnlyClient(s, u, c) && u.srv == s.srv
    ensures ThreadIs(u, c, t, Calling) && u.cli[c].thr == s.cli[c].thr[t := Calling]
    ensures u.cli[c].lock == s.cli[c].lock.(retry := u.cli[c].lock.retry)
    ensures ThreadIs(s, c, t, Waiting) ==> !u.cli[c].lock.retry
    ensures (c, u.cli[c].lock.seqNum) in u.acqReq
  {
    hide Inv, SrvAcquire, SrvRelease;
    if ThreadIs(s, c, t, Calling) {
      u := s;
      Stay(s);
      assert s.cli[c].thr == s.cli[c].thr[t := Calling];
    } else {
      u := Do(s, AskAgain(c, t));
    }
  }

  /** When the lock is free at the server, or the request was granted already, a thread that asks gets it. */
  lemma GetsOk(s: Sys, c: Client, t: Thread) returns (u: Sys)
    requires Good(s) && Asking(s, c, t) && (SeqOf(s.srv, c) == s.cli[c].lock.seqNum || !Held(s.srv))
    ensures Reaches(s, u) && Good(u) && OnlyClient(s, u, c)
    ensures ThreadIs(u, c, t, Holding) && u.cli[c].thr == s.cli[c].thr[t := Holding]
    ensures u.cli[c].lock.revoke == s.cli[c].lock.revoke && u.cli[c].lock.seqNum == s.cli[c].lock.seqNum
    ensures ThreadIs(s, c, t, Waiting) ==> !u.cli[c].lock.retry
  {
    hide Inv, SrvRelease;
    var a := Asks(s, c, t);
    var b := Do(a, ServeAcquire(c, a.cli[c].lock.seqNum));
    u := Do(b, RecvOk(c, t));
    Trans(s, a, b);
    Trans(s, b, u);
    assert u.cli[c].thr == s.cli[c].thr[t := Holding];
  }

  // ---- taking the lock from its holder ----

  /** The holder is a client, and the record shows its current grant. */
  lemma HolderIs(s: Sys)
    requires Inv(s) && Held(s.srv)
    ensures var h := s.srv.alloc.value.client;
            && h in s.cli && s.srv.alloc.value.seqNo == s.cli[h].lock.seqNum == SeqOf(s.srv, h)
            && Holds(s.srv, h, s.cli[h].lock.seqNum) && s.cli[h].lock.status != NONE
            && (s.cli[h].lock.revoke.Some? ==> s.cli[h].lock.revoke.value <= s.cli[h].lock.seqNum)
  {
    assert GrantOk(s, s.srv.alloc.value.client) && LocalOk(s.cli[s.srv.alloc.value.client]);
  }

  /** A revoke that is queued can arrive, and is then recorded. */
  lemma QueuedRevokeArrives(s: Sys, h: Client) returns (u: Sys)
    requires Good(s) && h in s.cli && h in s.srv.revokeQ && s.srv.revokeQ[h] == s.cli[h].lock.seqNum
    requires s.cli[h].lock.revoke.Some? ==> s.cli[h].lock.revoke.value <= s.cli[h].lock.seqNum
    ensures Reaches(s, u) && Good(u) && OnlyClient(s, u, h) && u.srv.alloc == s.srv.alloc && u.srv.seqOf == s.srv.seqOf
    ensures u.cli[h].lock.revoke == Some(u.cli[h].lock.seqNum) && u.cli[h].lock.seqNum == s.cli[h].lock.seqNum
  {
    hide Inv, Asked, Reaches, SrvAcquire, SrvRelease;
    var a := Do(s, TakeRevokes);
    assert (h, s.srv.revokeQ[h]) in Queued(s.srv.revokeQ);
    u := Do(a, DeliverRevoke(h, s.cli[h].lock.seqNum, false));
    Trans(s, a, u);
  }

  /** A request for a lock that another client holds brings a revoke of its grant to the holder. */
  lemma RevokeArrives(s: Sys, c: Client, h: Client) returns (u: Sys)
    requires Good(s) && c in s.cli && (c, s.cli[c].lock.seqNum) in s.acqReq && SeqOf(s.srv, c) < s.cli[c].lock.seqNum
    requires Held(s.srv) && s.srv.alloc.value.client == h
    ensures Reaches(s, u) && Good(u) && OnlyClient(s, u, h) && u.srv.alloc == s.srv.alloc && h != c && h in u.cli
    ensures u.cli[h].lock.revoke == Some(u.cli[h].lock.seqNum) && u.cli[h].lock.seqNum == s.cli[h].lock.seqNum
  {
    hide Inv, SrvRelease;
    HolderIs(s);
    var a := Do(s, ServeAcquire(c, s.cli[c].lock.seqNum));
    u := QueuedRevokeArrives(a, h);
    Trans(s, a, u);
  }

  /** What the holder is doing with the lock. */
  lemma HolderDoes(s: Sys, h: Client) returns (w: Thread)
    requires Inv(s) && h in s.cli && s.cli[h].lock.revoke == Some(s.cli[h].lock.seqNum)
    ensures s.cli[h].lock.status == LOCKED ==> ThreadIs(s, h, w, Holding)
    ensures s.cli[h].lock.status == ACQUIRING ==> Asking(s, h, w)
    ensures s.cli[h].lock.status != FREE
  {
    assert LocalOk(s.cli[h]);
    var thr := s.cli[h].thr;
    if s.cli[h].lock.status == LOCKED {
      w :| w in thr && thr[w] == Holding;
    } else if s.cli[h].lock.status == ACQUIRING {
      w :| w in thr && (thr[w] == Calling || thr[w] == Waiting);
    } else {
      w := 0;
    }
  }

  /** The thread inside leaves, and the revoked lock goes back. */
  lemma LeavesAndGivesBack(s: Sys, h: Client, w: Thread) returns (u: Sys)
    requires Good(s) && ThreadIs(s, h, w, Holding) && s.cli[h].lock.revoke == Some(s.cli[h].lock.seqNum)
    ensures Reaches(s, u) && Good(u) && OnlyClient(s, u, h) && !Held(u.srv)
    ensures u.cli[h].lock.status == NONE && u.cli[h].thr == s.cli[h].thr[w := Idle]
  {
    hide Inv, SrvAcquire, SrvRelease;
    ThreadInsideHolds(s, h, w);
    var a := Do(s, Release(h, w));
    u := GivesBack(a, h);
    Trans(s, a, u);
  }

  lemma ThreadInsideHolds(s: Sys, h: Client, w: Thread)
    requires Inv(s) && ThreadIs(s, h, w, Holding)
    ensures Holds(s.srv, h, s.cli[h].lock.seqNum) && s.cli[h].lock.status == LOCKED
  {
    assert GrantOk(s, h) && LocalOk(s.cli[h]);
  }

  /** Whatever the holder of a revoked grant is doing, the lock can come back to the server. */
  lemma HolderGivesBack(s: Sys, h: Client) returns (u: Sys)
    requires Good(s) && Held(s.srv) && s.srv.alloc.value.client == h && h in s.cli
    requires s.cli[h].lock.revoke == Some(s.cli[h].lock.seqNum)
    ensures Reaches(s, u) && Good(u) && OnlyClient(s, u, h) && !Held(u.srv)
  {
    hide Inv, SrvAcquire, SrvRelease;
    HolderIs(s);
    var w := HolderDoes(s, h);
    match s.cli[h].lock.status {
      case RELEASING => u := GivesBack(s, h);
      case LOCKED => u := LeavesAndGivesBack(s, h, w);
      case ACQUIRING =>
        var a := GetsOk(s, h, w);
        u := LeavesAndGivesBack(a, h, w);
        Trans(s, a, u);
    }
  }

  // ---- every thread can get the lock ----

  /** A thread that asks can come inside. */
  lemma AskingThreadGetsIt(s: Sys, c: Client, t: Thread) returns (u: Sys)
    requires Good(s) && Asking(s, c, t)
    ensures Reaches(s, u) && Good(u) && ThreadIs(u, c, t, Holding)
    ensures u.cli.Keys == s.cli.Keys && u.cli[c].thr == s.cli[c].thr[t := Holding]
  {
    hide Inv, SrvAcquire, SrvRelease;
    AskingIsNext(s, c, t);
    if SeqOf(s.srv, c) == s.cli[c].lock.seqNum || !Held(s.srv) {
      u := GetsOk(s, c, t);
    } else {
      var a := Asks(s, c, t);
      var h := s.srv.alloc.value.client;
      var b := RevokeArrives(a, c, h);
      var d := HolderGivesBack(b, h);
      assert d.cli[c] == a.cli[c];
      u := GetsOk(d, c, t);
      Trans(s, a, b);
      Trans(s, b, d);
      Trans(s, d, u);
    }
  }

  lemma AskingIsNext(s: Sys, c: Client, t: Thread)
    requires Inv(s) && Asking(s, c, t)
    ensures SeqOf(s.srv, c) <= s.cli[c].lock.seqNum && s.cli[c].lock.status == ACQUIRING
  {
    assert GrantOk(s, c) && LocalOk(s.cli[c]);
  }

  /** A thread outside can come inside once the client does not have the lock or has it FREE. */
  lemma IdleThreadGetsIt(s: Sys, c: Client, t: Thread) returns (u: Sys)
    requires Good(s) && ThreadIs(s, c, t, Idle) && (s.cli[c].lock.status == NONE || s.cli[c].lock.status == FREE)
    ensures Reaches(s, u) && ThreadIs(u, c, t, Holding)
  {
    hide Inv, SrvAcquire, SrvRelease;
    if s.cli[c].lock.status == FREE {
      u := Do(s, TakeFree(c, t));
    } else {
      var a := Do(s, TryAcquire(c, t));
      u := AskingThreadGetsIt(a, c, t);
      Trans(s, a, u);
    }
  }

  /** After another thread of the client has left, too. */
  lemma ThreadAfterAnother(s: Sys, c: Client, t: Thread, w: Thread) returns (u: Sys)
    requires Good(s) && ThreadIs(s, c, w, Holding) && ThreadIs(s, c, t, Idle)
    ensures Reaches(s, u) && ThreadIs(u, c, t, Holding)
  {
    hide Inv, SrvAcquire, SrvRelease;
    var a := Do(s, Release(c, w));
    if a.cli[c].lock.status == RELEASING {
      var b := GivesBack(a, c);
      u := IdleThreadGetsIt(b, c, t);
      Trans(s, a, b);
      Trans(s, b, u);
    } else {
      u := IdleThreadGetsIt(a, c, t);
      Trans(s, a, u);
    }
  }

  /** What client c is doing with the lock. */
  lemma ClientDoes(s: Sys, c: Client, t: Thread) returns (w: Thread)
    requires Inv(s) && c in s.cli && t in s.cli[c].thr
    ensures s.cli[c].lock.status == LOCKED ==> ThreadIs(s, c, w, Holding)
    ensures s.cli[c].lock.status == ACQUIRING ==> Asking(s, c, w)
    ensures s.cli[c].lock.status in {NONE, FREE, RELEASING} ==> w == t
    ensures w == t || ThreadIs(s, c, t, Idle)
    ensures s.cli[c].lock.status in {NONE, FREE, RELEASING} ==> ThreadIs(s, c, t, Idle)
  {
    assert LocalOk(s.cli[c]);
    var thr := s.cli[c].thr;
    if s.cli[c].lock.status == LOCKED {
      w :| w in thr && thr[w] == Holding;
    } else if s.cli[c].lock.status == ACQUIRING {
      w :| w in thr && (thr[w] == Calling || thr[w] == Waiting);
    } else {
      w := t;
    }
  }

  lemma AnyThreadGetsIt(s: Sys, c: Client, t: Thread) returns (u: Sys)
    requires Good(s) && c in s.cli && t in s.cli[c].thr
    ensures Reaches(s, u) && ThreadIs(u, c, t, Holding)
  {
    hide Inv, SrvAcquire, SrvRelease;
    var w := ClientDoes(s, c, t);
    match s.cli[c].lock.status {
      case NONE => u := IdleThreadGetsIt(s, c, t);
      case FREE => u := IdleThreadGetsIt(s, c, t);
      case RELEASING =>
        var a := GivesBack(s, c);
        u := IdleThreadGetsIt(a, c, t);
        Trans(s, a, u);
      case LOCKED =>
        if w == t {
          u := s;
          Stay(s);
        } else {
          u := ThreadAfterAnother(s, c, t, w);
        }
      case ACQUIRING =>
        var a := AskingThreadGetsIt(s, c, w);
        if w == t {
          u := a;
        } else {
          u := ThreadAfterAnother(a, c, t, w);
          Trans(s, a, u);
        }
    }
  }

  lemma {:induction false} GoodOverRuns(s: Sys, steps: seq<Step>, u: Sys)
    requires Good(s) && Runs(s, steps, u)
    ensures Good(u)
    decreases |steps|
  {
    hide Inv, Asked, Apply;
    if |steps| > 0 {
      StepKept(s, steps[0]);
      AskedKept(s, steps[0]);
      GoodOverRuns(Apply(s, steps[0]), steps[1..], u);
    }
  }

  /** Nothing gets stuck: from every reachable state, every thread of every client can come to hold the lock. */
  lemma EveryThreadCanGetTheLock(s0: Sys, steps: seq<Step>, s: Sys, c: Client, t: Thread)
    requires Init(s0) && Runs(s0, steps, s) && c in s.cli && t in s.cli[c].thr
    ensures exists more, u :: Runs(s, more, u) && ThreadIs(u, c, t, Holding)
  {
    InitOk(s0);
    GoodOverRuns(s0, steps, s);
    var u := AnyThreadGetsIt(s, c, t);
    var more :| Runs(s, more, u);
  }

  // ---- being woken ----

  /** A wake-up that is queued at the server can arrive. */
  lemma WakeUpArrives(s: Sys, c: Client) returns (u: Sys)
    requires Good(s) && c in s.cli && c in s.srv.retryQ
    ensures Reaches(s, u) && Good(u) && u.srv.alloc == s.srv.alloc && u.srv.seqOf == s.srv.seqOf
    ensures c in u.cli && u.cli[c] == s.cli[c].(lock := s.cli[c].lock.(retry := true))
  {
    hide Inv, SrvAcquire, SrvRelease;
    var a := Do(s, TakeRetries);
    u := Do(a, DeliverRetry(c));
    Trans(s, a, u);
  }

  /** c's thread waits, woken, and the lock is free. */
  ghost predicate Woken(s: Sys, c: Client, t: Thread) {
    ThreadIs(s, c, t, Waiting) && s.cli[c].lock.retry && !Held(s.srv)
  }

  lemma RefusedThreadWaits(s: Sys, c: Client, t: Thread) returns (u: Sys)
    requires Good(s) && ThreadIs(s, c, t, Calling) && SeqOf(s.srv, c) < s.cli[c].lock.seqNum && Held(s.srv)
    ensures Reaches(s, u) && Good(u) && ThreadIs(u, c, t, Waiting) && c in u.srv.retryQ && u.srv.alloc == s.srv.alloc
    ensures SeqOf(u.srv, c) < u.cli[c].lock.seqNum && (c, u.cli[c].lock.seqNum) in u.acqReq
  {
    hide Inv, SrvRelease;
    var a := Do(s, ServeAcquire(c, s.cli[c].lock.seqNum));
    u := Do(a, RecvRetry(c, t));
    Trans(s, a, u);
  }

  /** The whole cycle: a thread whose request is refused waits, is woken once the holder has given the lock back, asks
      again with the flag set, which clears it, and is inside. */
  lemma RefusedThreadIsWokenAndServed(s0: Sys, steps: seq<Step>, s: Sys, c: Client, t: Thread)
    requires Init(s0) && Runs(s0, steps, s) && ThreadIs(s, c, t, Calling)
    requires !SrvAcquire(s.srv, c, s.cli[c].lock.seqNum).1
    ensures exists u, v :: Reaches(s, u) && Woken(u, c, t)
              && Reaches(u, v) && ThreadIs(v, c, t, Holding) && !v.cli[c].lock.retry
  {
    hide Inv;
    InitOk(s0);
    GoodOverRuns(s0, steps, s);
    AcquireExactlyWhen(s.srv, c, s.cli[c].lock.seqNum);
    var a := RefusedThreadWaits(s, c, t);
    var h := a.srv.alloc.value.client;
    var b := RevokeArrives(a, c, h);
    var d := HolderGivesBack(b, h);
    assert d.cli[c] == a.cli[c];
    var u := WakeUpArrives(d, c);
    var v := GetsOk(u, c, t);
    Trans(s, a, b);
    Trans(s, b, d);
    Trans(s, d, u);
  }

  /** What a client gave back, it can have as if never seen, but for the next number. */
  lemma ReturnedLockIsAsNew(s: Sys, h: Client) returns (u: Sys)
    requires Good(s) && h in s.cli && s.cli[h].lock.status == RELEASING
    ensures Reaches(s, u) && Good(u) && h in u.cli
    ensures var k := s.cli[h].lock; u.cli[h].lock == NewLock().(seqNum := k.seqNum + 1, retry := k.retry)
  {
    hide Inv, SrvAcquire, SrvRelease;
    RevokeIsOfTheGrant(s, h);
    var a := GivesBack(s, h);
    u := Do(a, Purge(h));
    Trans(s, a, u);
  }

  lemma RevokeIsOfTheGrant(s: Sys, h: Client)
    requires Inv(s) && h in s.cli && s.cli[h].lock.status == RELEASING
    ensures s.cli[h].lock.revoke == Some(s.cli[h].lock.seqNum)
  {
    assert LocalOk(s.cli[h]);
  }

  // ---- what nothing prevents ----

  /** Requests and answers stay, and each can be handled at any time and any number of times; a revoke can be
      delivered again. */
  lemma NetworkIsFree(s: Sys, st: Step, c: Client, x: nat, again: bool)
    requires Good(s)
    ensures Enabled(s, st) ==>
              var u := Apply(s, st);
              s.acqReq <= u.acqReq && s.acqRep <= u.acqRep && s.relReq <= u.relReq && s.relRep <= u.relRep
    ensures (c, x) in s.acqReq ==> Enabled(s, ServeAcquire(c, x))
    ensures (c, x) in s.relReq ==> Enabled(s, ServeRelease(c, x))
    ensures (c, x) in s.revOut ==>
              && Enabled(s, DeliverRevoke(c, x, again))
              && ((c, x) in Apply(s, DeliverRevoke(c, x, again)).revOut <==> again)
  {
    hide DemandsOk, LocalOk;
    if (c, x) in s.relReq {
      assert SeqOf(s.srv, c) >= 1;
    }
  }
}
