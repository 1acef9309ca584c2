/** What a call returns, what the server does with every request, and that every call can be answered. */
module RpcCalls {
  import opened Wrappers
  import opened RpcSpec
  import opened RpcSystem

  // ---- the client's side ----

  /** Issuing a call sends one request, which acknowledges the greatest k such that 1..k are received. */
  lemma IssueAcknowledgesTheFront(s: Sys)
    ensures var t := Apply(s, Issue);
            exists f :: IsFront(s.received, f)
              && t == s.(nextXid := s.nextXid + 1, calls := s.calls[s.nextXid := Waiting],
                         reqs := s.reqs + {(s.nextXid, f)})
  {
    FrontIs(s.received);
  }

  /** The first reply to x among the steps is the one at position i. */
  ghost predicate FirstReply(steps: seq<Step>, x: nat, i: nat, v: string) {
    && i < |steps| && steps[i] == GotReply(x, v)
    && forall j :: 0 <= j < i ==> !(steps[j].GotReply? && steps[j].xid == x)
  }

  ghost predicate NoReply(steps: seq<Step>, x: nat) {
    forall st :: st in steps ==> !(st.GotReply? && st.xid == x)
  }

  ghost predicate NoReturn(steps: seq<Step>, x: nat) {
    forall st :: st in steps ==> st != Return(x)
  }

  /** One step that does not return x: an answer stays, and a waiting call is answered by its reply only. */
  lemma CallStep(s: Sys, st: Step, x: nat)
    requires Inv(s) && Enabled(s, st) && x in s.calls && st != Return(x)
    ensures x in Apply(s, st).calls
    ensures Apply(s, st).calls[x] ==
            if s.calls[x] == Waiting && st.GotReply? && st.xid == x then Answered(st.result) else s.calls[x]
  {
  }

  lemma {:induction false} AnswerStays(s: Sys, steps: seq<Step>, t: Sys, x: nat)
    requires Inv(s) && Runs(s, steps, t) && x in s.calls && s.calls[x].Answered? && NoReturn(steps, x)
    ensures x in t.calls && t.calls[x] == s.calls[x]
    decreases |steps|
  {
    hide Inv;
    if |steps| > 0 {
      assert steps[0] in steps && forall st :: st in steps[1..] ==> st in steps;
      CallStep(s, steps[0], x);
      StepKept(s, steps[0]);
      AnswerStays(Apply(s, steps[0]), steps[1..], t, x);
    }
  }

  lemma {:induction false} WaitingUntilFirstReply(s: Sys, steps: seq<Step>, t: Sys, x: nat)
    requires Inv(s) && Runs(s, steps, t) && x in s.calls && s.calls[x] == Waiting && NoReturn(steps, x)
    ensures x in t.calls
    ensures NoReply(steps, x) ==> t.calls[x] == Waiting
    ensures forall i: nat, v :: FirstReply(steps, x, i, v) ==> t.calls[x] == Answered(v)
    ensures NoReply(steps, x) || t.calls[x].Answered?
    decreases |steps|
  {
    hide Inv;
    if |steps| > 0 {
      var st, rest := steps[0], steps[1..];
      assert st in steps && steps == [st] + rest && forall q :: q in rest ==> q in steps;
      CallStep(s, st, x);
      StepKept(s, st);
      if st.GotReply? && st.xid == x {
        AnswerStays(Apply(s, st), rest, t, x);
        assert forall i: nat, v :: FirstReply(steps, x, i, v) ==> i == 0;
      } else {
        WaitingUntilFirstReply(Apply(s, st), rest, t, x);
        forall i: nat, v | FirstReply(steps, x, i, v)
          ensures t.calls[x] == Answered(v)
        {
          assert i > 0 && rest[i - 1] == steps[i];
          assert forall j :: 0 <= j < i - 1 ==> rest[j] == steps[j + 1];
          assert FirstReply(rest, x, i - 1, v);
        }
      }
    }
  }

  /** What was returned is not returned again. */
  lemma {:induction false} ReturnedStays(s: Sys, steps: seq<Step>, t: Sys, x: nat)
    requires Inv(s) && Runs(s, steps, t) && x in s.returned && x !in s.calls && x < s.nextXid
    ensures x in t.returned && t.returned[x] == s.returned[x]
    decreases |steps|
  {
    hide Inv;
    if |steps| > 0 {
      StepKept(s, steps[0]);
      ReturnedStays(Apply(s, steps[0]), steps[1..], t, x);
    }
  }

  lemma WaitingIsIssued(s: Sys, x: nat)
    requires Inv(s) && x in s.calls
    ensures x < s.nextXid
  {
  }

  /** What a call returns, in every run: the first reply that arrives for it before it returns, and nothing if and only
      if none does; and that is final. */
  lemma CallReturnsItsFirstReply(before: seq<Step>, s: Sys, x: nat, mid: seq<Step>, u: Sys, after: seq<Step>, t: Sys)
    requires Runs(Init(), before, s) && x in s.calls && s.calls[x] == Waiting
    requires Runs(s, mid, u) && NoReturn(mid, x) && Enabled(u, Return(x)) && Runs(Apply(u, Return(x)), after, t)
    ensures x in t.returned
    ensures forall i: nat, v :: FirstReply(mid, x, i, v) ==> t.returned[x] == Some(v)
    ensures t.returned[x] == None <==> NoReply(mid, x)
  {
    hide Inv;
    Reachable(before, s);
    WaitingUntilFirstReply(s, mid, u, x);
    RpcSystem.RunsKept(s, mid, u);
    WaitingIsIssued(u, x);
    StepKept(u, Return(x));
    ReturnedStays(Apply(u, Return(x)), after, t, x);
  }

  // ---- the server's side ----

  /** What the server does with a request, by what it remembers: runs the handler once more, stays silent while it runs,
      or sends the stored reply again. */
  lemma RequestIsHandledByItsEntry(s: Sys, x: nat, r: nat)
    requires Inv(s) && (x, r) in s.reqs
    ensures var t := DoReceive(s, x, r);
            && (!Remembers(s.win, x) ==>
                  t.execs == s.execs[x := Execs(s, x) + [None]] && t.reps == s.reps && Rep(x, None) in t.win)
            && (Rep(x, None) in s.win ==> t.execs == s.execs && t.reps == s.reps && Rep(x, None) in t.win)
            && (forall v :: Rep(x, Some(v)) in s.win ==>
                  t.execs == s.execs && t.reps == s.reps + {(x, v)} && Rep(x, Some(v)) in t.win)
            && t == s.(win := t.win, execs := t.execs, reps := t.reps)
    ensures forall q: Rep :: q in DoReceive(s, x, r).win <==>
              (q in s.win && q.xid > r) || (q == Rep(x, None) && !Remembers(s.win, x))
  {
    VerdictExactlyWhen(s.win, x, r);
    CheckKeeps(s.win, x, r);
  }

  /** A verdict FORGOTTEN, and no other, would be recorded as a refusal. */
  lemma RefusalsAreRecorded(s: Sys, x: nat, r: nat)
    ensures DoReceive(s, x, r).refused == if Check(s.win, x, r).1 == FORGOTTEN then s.refused + {x} else s.refused
  {
  }

  /** A handler that ends sends its result and stores it at the request's entry. */
  lemma ResultIsStoredAndSent(s: Sys, x: nat, i: nat, v: string)
    requires Enabled(s, Finish(x, i, v))
    ensures var t := Apply(s, Finish(x, i, v));
            && Execs(t, x) == Execs(s, x)[i := Some(v)] && t.reps == s.reps + {(x, v)}
            && (Remembers(s.win, x) ==> Rep(x, Some(v)) in t.win)
            && t == s.(win := t.win, execs := t.execs, reps := t.reps)
  {
    ReplyIsStored(s.win, x, v, Rep(x, Some(v)));
  }

  // ---- every call can be answered ----

  ghost predicate Requested(s: Sys) {
    forall x {:trigger x in s.calls} :: x in s.calls ==> exists r: nat :: (x, r) in s.reqs
  }

  lemma {:induction false} RunsRequest(s: Sys, steps: seq<Step>, t: Sys)
    requires Requested(s) && Runs(s, steps, t)
    ensures Requested(t)
    decreases |steps|
  {
    if |steps| > 0 {
      StepRequests(s, steps[0]);
      RunsRequest(Apply(s, steps[0]), steps[1..], t);
    }
  }

  lemma StepRequests(s: Sys, st: Step)
    requires Requested(s) && Enabled(s, st)
    ensures Requested(Apply(s, st))
  {
    var t := Apply(s, st);
    forall x | x in t.calls
      ensures exists r: nat :: (x, r) in t.reqs
    {
      if x in s.calls {
        var r: nat :| (x, r) in s.reqs;
        assert (x, r) in t.reqs;
      } else {
        assert (x, Front(s.received, 0)) in t.reqs;
      }
    }
  }

  ghost predicate CanReach(s: Sys, t: Sys) {
    exists steps :: Runs(s, steps, t)
  }

  lemma Before(s: Sys, st: Step, t: Sys)
    requires Enabled(s, st) && CanReach(Apply(s, st), t)
    ensures CanReach(s, t)
  {
    var steps :| Runs(Apply(s, st), steps, t);
    assert ([st] + steps)[1..] == steps;
    assert Runs(s, [st] + steps, t);
  }

  /** A reply on the network can be received. */
  lemma AnswerFromReply(s: Sys, x: nat, v: string) returns (t: Sys)
    requires x in s.calls && s.calls[x] == Waiting && (x, v) in s.reps
    ensures CanReach(s, t) && x in t.calls && t.calls[x] == Answered(v)
  {
    t := Apply(s, GotReply(x, v));
    assert Runs(t, [], t);
    Before(s, GotReply(x, v), t);
  }

  /** A handler that runs can end, whatever it computes. */
  lemma AnswerFromRunning(s: Sys, x: nat, i: nat, v: string) returns (t: Sys)
    requires x in s.calls && s.calls[x] == Waiting && Enabled(s, Finish(x, i, v))
    ensures CanReach(s, t) && x in t.calls && t.calls[x] == Answered(v)
  {
    t := AnswerFromReply(Apply(s, Finish(x, i, v)), x, v);
    Before(s, Finish(x, i, v), t);
  }

  /** Nothing gets stuck: in every reachable state every call that waits can still be answered; if its handler has
      ended, by that result, and otherwise by whatever the handler computes. */
  lemma EveryCallCanBeAnswered(before: seq<Step>, s: Sys, x: nat, v: string)
    requires Runs(Init(), before, s) && x in s.calls && s.calls[x] == Waiting
    requires Execs(s, x) == [] || Execs(s, x) == [None] || Execs(s, x) == [Some(v)]
    ensures exists t :: CanReach(s, t) && x in t.calls && t.calls[x] == Answered(v)
  {
    Reachable(before, s);
    assert Requested(Init());
    RunsRequest(Init(), before, s);
    assert OpenOk(s, x);
    var r: nat :| (x, r) in s.reqs;
    var u := Apply(s, Receive(x, r));
    RequestIsHandledByItsEntry(s, x, r);
    var t;
    if Execs(s, x) == [Some(v)] {
      var q: Rep :| q in s.win && q.xid == x;
      assert q == Rep(x, Some(v));
      t := AnswerFromReply(u, x, v);
      Before(s, Receive(x, r), t);
    } else if Execs(s, x) == [None] {
      t := AnswerFromRunning(s, x, 0, v);
    } else {
      assert !Remembers(s.win, x);
      assert Execs(u, x) == [] + [None];
      t := AnswerFromRunning(u, x, 0, v);
      Before(s, Receive(x, r), t);
    }
  }

  // ---- what is acknowledged is forgotten, and everything is in the end ----

  /** Every call made waits or has its xid in the window. */
  ghost predicate Accounted(s: Sys) {
    forall x :: 1 <= x < s.nextXid ==> x in s.received || x in s.calls
  }

  lemma {:induction false} RunsAccount(s: Sys, steps: seq<Step>, t: Sys)
    requires Accounted(s) && Runs(s, steps, t)
    ensures Accounted(t)
    decreases |steps|
  {
    if |steps| > 0 {
      StepAccounts(s, steps[0]);
      RunsAccount(Apply(s, steps[0]), steps[1..], t);
    }
  }

  lemma StepAccounts(s: Sys, st: Step)
    requires Accounted(s) && Enabled(s, st)
    ensures Accounted(Apply(s, st))
  {
  }

  ghost predicate BelowNext(s: Sys) {
    forall q: Rep :: q in s.win ==> q.xid < s.nextXid
  }

  lemma {:induction false} RunsStayBelow(s: Sys, steps: seq<Step>, t: Sys)
    requires Inv(s) && BelowNext(s) && Runs(s, steps, t)
    ensures BelowNext(t)
    decreases |steps|
  {
    hide Inv;
    if |steps| > 0 {
      StepStaysBelow(s, steps[0]);
      StepKept(s, steps[0]);
      RunsStayBelow(Apply(s, steps[0]), steps[1..], t);
    }
  }

  lemma StepStaysBelow(s: Sys, st: Step)
    requires Inv(s) && BelowNext(s) && Enabled(s, st)
    ensures BelowNext(Apply(s, st))
  {
    if st.Receive? {
      RequestIsHandledByItsEntry(s, st.xid, st.xidRep);
    } else if st.Finish? {
      RepliedKeeps(s.win, st.xid, st.result);
      assert forall q: Rep :: q in Apply(s, st).win ==> Remembers(Apply(s, st).win, q.xid);
    }
  }

  lemma OnlyEntry(w: seq<Rep>, r: Rep)
    requires Ascending(w) && forall q: Rep :: q in w <==> q == r
    ensures w == [r]
  {
    assert r in w && w[0] in w && w[|w| - 1] in w;
  }

  /** When no call waits, the next header acknowledges all earlier calls. */
  lemma NextHeaderAcknowledgesAll(before: seq<Step>, s: Sys)
    requires Runs(Init(), before, s) && forall x :: x in s.calls ==> s.calls[x] != Waiting
    ensures (s.nextXid, s.nextXid - 1) in Apply(s, Issue).reqs
  {
    Reachable(before, s);
    RunsAccount(Init(), before, s);
    FrontIs(s.received);
    assert IsFront(s.received, s.nextXid - 1);
    FrontIsUnique(s.received, Front(s.received, 0), s.nextXid - 1);
  }

  /** The server's memory is bounded by what is outstanding: once no call waits, the next request, when it arrives,
      leaves nothing in the window but its own entry. */
  lemma NextRequestClearsTheWindow(before: seq<Step>, s: Sys)
    requires Runs(Init(), before, s) && forall x :: x in s.calls ==> s.calls[x] != Waiting
    ensures (s.nextXid, s.nextXid - 1) in Apply(s, Issue).reqs
    ensures DoReceive(Apply(s, Issue), s.nextXid, s.nextXid - 1).win == [Rep(s.nextXid, None)]
  {
    hide Inv, Apply, DoReceive;
    var n, t := s.nextXid, Apply(s, Issue);
    Reachable(before, s);
    WindowStartsEmpty();
    RunsStayBelow(Init(), before, s);
    IssueAcknowledgesTheFront(s);
    NextHeaderAcknowledgesAll(before, s);
    StepKept(s, Issue);
    RequestIsHandledByItsEntry(t, n, n - 1);
    StepKept(t, Receive(n, n - 1));
    assert Apply(t, Receive(n, n - 1)) == DoReceive(t, n, n - 1) by {
      WhatReceiveDoes(t, n, n - 1);
    }
    WindowAscends(DoReceive(t, n, n - 1));
    OnlyEntry(DoReceive(t, n, n - 1).win, Rep(n, None));
  }

  lemma WhatReceiveDoes(s: Sys, x: nat, r: nat)
    requires (x, r) in s.reqs
    ensures Apply(s, Receive(x, r)) == DoReceive(s, x, r)
  {
  }

  lemma WindowAscends(s: Sys)
    requires Inv(s)
    ensures Ascending(s.win)
  {
  }

  lemma WindowStartsEmpty()
    ensures Inv(Init()) && BelowNext(Init())
  {
    assert forall x :: OpenOk(Init(), x);
  }

  // ---- what nothing prevents ----

  /** Requests and replies stay, so each can arrive late, again or never; a call can end at any time. */
  lemma NetworkIsFree(s: Sys, st: Step, x: nat, r: nat, v: string)
    ensures Enabled(s, st) ==> s.reqs <= Apply(s, st).reqs && s.reps <= Apply(s, st).reps
    ensures (x, r) in s.reqs ==> Enabled(s, Receive(x, r))
    ensures (x, v) in s.reps ==> Enabled(s, GotReply(x, v))
    ensures x in s.calls ==> Enabled(s, Return(x))
  {
  }
}
