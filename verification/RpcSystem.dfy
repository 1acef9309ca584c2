/** One client and one server incarnation over a network that loses, delays, duplicates and reorders requests and
    replies; requests stay on the network forever, so retransmission needs no step of its own. */
module RpcSystem {
  import opened Wrappers
  import opened RpcSpec

  datatype Call = Waiting | Answered(result: string)

  datatype Sys = Sys(
    nextXid: nat,
    received: set<nat>,                       // xids whose reply arrived or whose call ended
    calls: map<nat, Call>,                    // calls_: the calls not yet returned
    returned: map<nat, Option<string>>,       // what finished calls returned; None is a timeout
    reqs: set<(nat, nat)>,                    // (xid, xid_rep)
    reps: set<(nat, string)>,
    refused: set<nat>,                        // xids answered FORGOTTEN
    win: seq<Rep>,
    execs: map<nat, seq<Option<string>>>)     // executions of each request in order; None while running

  datatype Step =
    | Issue
    | Receive(xid: nat, xidRep: nat)          // the server's dispatch
    | Finish(xid: nat, i: nat, result: string)  // execution i of xid ends; add_reply and send
    | GotReply(xid: nat, result: string)
    | Return(xid: nat)                        // call1 ends: answered or timed out

  /** The front of the client's window. */
  function Front(received: set<nat>, k: nat): (f: nat)
    ensures k <= f && f + 1 !in received && forall i :: k < i <= f ==> i in received
    decreases set x | x in received && x > k
  {
    if k + 1 in received then
      assert (set x | x in received && x > k) == (set x | x in received && x > k + 1) + {k + 1};
      Front(received, k + 1)
    else k
  }

  lemma FrontIs(received: set<nat>)
    ensures IsFront(received, Front(received, 0))
  {
  }

  function Init(): Sys {
    Sys(1, {}, map[], map[], {}, {}, {}, [], map[])
  }

  function Execs(s: Sys, xid: nat): seq<Option<string>> {
    if xid in s.execs then s.execs[xid] else []
  }

  predicate Enabled(s: Sys, st: Step) {
    match st
    case Issue => true
    case Receive(x, r) => (x, r) in s.reqs
    case Finish(x, i, result) => i < |Execs(s, x)| && Execs(s, x)[i] == None
    case GotReply(x, result) => (x, result) in s.reps
    case Return(x) => x in s.calls
  }

  /** What dispatch does with the window and the verdict the check left. */
  function Dispatch(s: Sys, x: nat, w: seq<Rep>, verdict: Verdict): Sys {
    match verdict
    case NEW => s.(win := w, execs := s.execs[x := Execs(s, x) + [None]])
    case INPROGRESS => s.(win := w)
    case DONE(reply) => s.(win := w, reps := s.reps + {(x, reply)})
    case FORGOTTEN => s.(win := w, refused := s.refused + {x})
  }

  function DoReceive(s: Sys, x: nat, r: nat): Sys {
    Dispatch(s, x, Check(s.win, x, r).0, Check(s.win, x, r).1)
  }

  function Apply(s: Sys, st: Step): Sys
    requires Enabled(s, st)
  {
    match st
    case Issue =>
      s.(nextXid := s.nextXid + 1, calls := s.calls[s.nextXid := Waiting],
         reqs := s.reqs + {(s.nextXid, Front(s.received, 0))})
    case Receive(x, r) => DoReceive(s, x, r)
    case Finish(x, i, result) =>
      s.(execs := s.execs[x := Execs(s, x)[i := Some(result)]], win := Replied(s.win, x, result),
         reps := s.reps + {(x, result)})
    case GotReply(x, result) =>
      s.(received := s.received + {x},
         calls := if x in s.calls && s.calls[x] == Waiting then s.calls[x := Answered(result)] else s.calls)
    case Return(x) =>
      s.(received := s.received + {x}, calls := s.calls - {x},
         returned := s.returned[x := if s.calls[x].Answered? then Some(s.calls[x].result) else None])
  }

  ghost predicate Runs(s: Sys, steps: seq<Step>, t: Sys)
    decreases |steps|
  {
    if |steps| == 0 then s == t
    else Enabled(s, steps[0]) && Runs(Apply(s, steps[0]), steps[1..], t)
  }

  // ---- the invariant ----

  /** Until a reply for x arrives or its call ends, the server runs x at most once and keeps its entry. */
  ghost predicate OpenOk(s: Sys, x: nat) {
    && |Execs(s, x)| <= 1
    && (forall r: Rep :: r in s.win && r.xid == x ==> Execs(s, x) == [r.reply])
    && (|Execs(s, x)| == 1 ==> Remembers(s.win, x))
    && (forall v :: (x, v) in s.reps ==> Execs(s, x) == [Some(v)])
  }

  /** A recorded result is the first execution's. */
  ghost predicate ResultOk(s: Sys, x: nat, v: string) {
    |Execs(s, x)| > 0 && Execs(s, x)[0] == Some(v)
  }

  ghost predicate ClientOk(s: Sys) {
    && s.nextXid >= 1 && (forall x :: x in s.received ==> 1 <= x < s.nextXid)
    && (forall x :: x in s.calls ==> 1 <= x < s.nextXid && (s.calls[x] == Waiting <==> x !in s.received))
    && (forall x, r :: (x, r) in s.reqs ==> 1 <= x < s.nextXid && r < x && forall i :: 1 <= i <= r ==> i in s.received)
    && (forall x, v :: (x, v) in s.reps ==> 1 <= x < s.nextXid)
    && (forall x :: x in s.execs ==> 1 <= x < s.nextXid)
  }

  ghost predicate Inv(s: Sys) {
    && ClientOk(s) && Ascending(s.win) && s.refused == {}
    && (forall x {:trigger OpenOk(s, x)} :: x !in s.received ==> OpenOk(s, x))
    && (forall x :: x in s.calls && s.calls[x].Answered? ==> ResultOk(s, x, s.calls[x].result))
    && (forall x :: x in s.returned && s.returned[x].Some? ==> ResultOk(s, x, s.returned[x].value))
  }

  lemma IssueClientKept(s: Sys)
    requires ClientOk(s)
    ensures ClientOk(Apply(s, Issue))
  {
    hide Front;
    FrontIs(s.received);
    assert Front(s.received, 0) in s.received || Front(s.received, 0) == 0;
  }

  lemma IssueKept(s: Sys)
    requires Inv(s)
    ensures Inv(Apply(s, Issue))
  {
    hide Front, ClientOk;
    var t := Apply(s, Issue);
    IssueClientKept(s);
    forall x | x !in t.received
      ensures OpenOk(t, x)
    {
      assert OpenOk(s, x);
    }
  }

  /** Requests never acknowledge an open xid, so its entry survives and a copy of it finds the entry. */
  lemma DispatchOpen(s: Sys, x: nat, r: nat, w: seq<Rep>, verdict: Verdict, y: nat)
    requires OpenOk(s, y) && CheckFacts(s.win, x, r, w, verdict) && r < y
    ensures OpenOk(Dispatch(s, x, w, verdict), y)
  {
    if verdict == NEW {
      assert Rep(x, None) in w;
    }
    if Remembers(s.win, y) {
      var q: Rep :| q in s.win && q.xid == y;
      assert q in w;
    }
  }

  lemma DispatchKept(s: Sys, x: nat, r: nat, w: seq<Rep>, verdict: Verdict)
    requires Inv(s) && (x, r) in s.reqs && CheckFacts(s.win, x, r, w, verdict)
    ensures Inv(Dispatch(s, x, w, verdict))
  {
    var t := Dispatch(s, x, w, verdict);
    forall y | y !in t.received
      ensures OpenOk(t, y)
    {
      assert OpenOk(s, y);
      if r < y {
        DispatchOpen(s, x, r, w, verdict, y);
      } else {
        assert y == 0 && y !in s.execs;
      }
    }
    forall y, v | ResultOk(s, y, v)
      ensures ResultOk(t, y, v)
    {
    }
  }

  lemma ReceiveKept(s: Sys, x: nat, r: nat)
    requires Inv(s) && (x, r) in s.reqs
    ensures Inv(DoReceive(s, x, r))
  {
    CheckKeeps(s.win, x, r);
    DispatchKept(s, x, r, Check(s.win, x, r).0, Check(s.win, x, r).1);
  }

  lemma FinishKept(s: Sys, st: Step)
    requires Inv(s) && Enabled(s, st) && st.Finish?
    ensures Inv(Apply(s, st))
  {
    var t := Apply(s, st);
    RepliedKeeps(s.win, st.xid, st.result);
    forall y | y !in t.received
      ensures OpenOk(t, y)
    {
      assert OpenOk(s, y);
    }
    forall y, v | ResultOk(s, y, v)
      ensures ResultOk(t, y, v)
    {
    }
  }

  lemma ClientStepKept(s: Sys, st: Step)
    requires Inv(s) && Enabled(s, st) && (st.GotReply? || st.Return?)
    ensures Inv(Apply(s, st))
  {
    var t := Apply(s, st);
    forall y | y !in t.received
      ensures OpenOk(t, y)
    {
      assert OpenOk(s, y);
    }
    if st.GotReply? && st.xid !in s.received {
      assert OpenOk(s, st.xid);
    }
    forall y, v | ResultOk(s, y, v)
      ensures ResultOk(t, y, v)
    {
    }
  }

  /** Every step keeps the invariant. */
  lemma StepKept(s: Sys, st: Step)
    requires Inv(s) && Enabled(s, st)
    ensures Inv(Apply(s, st))
  {
    match st {
      case Issue => IssueKept(s);
      case Receive(x, r) => ReceiveKept(s, x, r);
      case Finish(_, _, _) => FinishKept(s, st);
      case _ => ClientStepKept(s, st);
    }
  }

  lemma {:induction false} RunsKept(s: Sys, steps: seq<Step>, t: Sys)
    requires Inv(s) && Runs(s, steps, t)
    ensures Inv(t)
    decreases |steps|
  {
    if |steps| > 0 {
      StepKept(s, steps[0]);
      RunsKept(Apply(s, steps[0]), steps[1..], t);
    }
  }

  lemma Reachable(steps: seq<Step>, s: Sys)
    requires Runs(Init(), steps, s)
    ensures Inv(s)
  {
    assert forall x :: OpenOk(Init(), x);
    RunsKept(Init(), steps, s);
  }

  // ---- main results ----

  /** At most once, end to end: while a call waits, its handler has run at most once, every reply sent for it is that
      run's result, and whatever the server decides on another copy, it does not start a second run. */
  lemma AtMostOnceWhileOutstanding(steps: seq<Step>, s: Sys, x: nat, r: nat, v: string)
    requires Runs(Init(), steps, s) && x in s.calls && s.calls[x] == Waiting
    ensures |Execs(s, x)| <= 1
    ensures (x, v) in s.reps ==> Execs(s, x) == [Some(v)]
    ensures (x, r) in s.reqs && |Execs(s, x)| == 1 ==> Execs(DoReceive(s, x, r), x) == Execs(s, x)
  {
    Reachable(steps, s);
    assert OpenOk(s, x);
    if (x, r) in s.reqs {
      StepKept(s, Receive(x, r));
      assert OpenOk(DoReceive(s, x, r), x);
    }
  }

  /** Whatever a call returns is what its first execution computed, even if copies run again later. */
  lemma CallsReturnTheFirstExecution(steps: seq<Step>, s: Sys, x: nat)
    requires Runs(Init(), steps, s) && x in s.returned && s.returned[x].Some?
    ensures |Execs(s, x)| > 0 && Execs(s, x)[0] == s.returned[x]
  {
    Reachable(steps, s);
  }

  /** The server never answers FORGOTTEN: no header a client builds acknowledges its own xid or a later one. */
  lemma NothingIsForgotten(steps: seq<Step>, s: Sys, x: nat, r: nat)
    requires Runs(Init(), steps, s)
    ensures s.refused == {} && ((x, r) in s.reqs ==> r < x && Check(s.win, x, r).1 != FORGOTTEN)
  {
    Reachable(steps, s);
    if (x, r) in s.reqs {
      ForgottenNeedsALargerAck(s.win, x, r);
    }
  }

  /** The state once call 1 was issued, executed and answered. */
  function FirstAnswered(): Sys {
    Sys(2, {1}, map[1 := Answered("a")], map[], {(1, 0)}, {(1, "a")}, {}, [Rep(1, Some("a"))], map[1 := [Some("a")]])
  }

  lemma FirstCall()
    ensures Runs(Init(), [Issue, Receive(1, 0), Finish(1, 0, "a"), GotReply(1, "a")], FirstAnswered())
  {
    var s1 := Sys(2, {}, map[1 := Waiting], map[], {(1, 0)}, {}, {}, [], map[]);
    assert Apply(Init(), Issue) == s1;
    var s2 := s1.(win := [Rep(1, None)], execs := map[1 := [None]]);
    var running: seq<Option<string>> := [None];
    assert Inserted([], 1) == [Rep(1, None)] && [] + running == running;
    assert Check([], 1, 0) == ([Rep(1, None)], NEW);
    assert Apply(s1, Receive(1, 0)) == s2;
    var s3 := s2.(win := [Rep(1, Some("a"))], execs := map[1 := [Some("a")]], reps := {(1, "a")});
    assert Replied(s2.win, 1, "a") == s3.win && running[0 := Some("a")] == [Some("a")];
    assert Apply(s2, Finish(1, 0, "a")) == s3;
    assert Apply(s3, GotReply(1, "a")) == FirstAnswered();
    ChainRuns([Issue, Receive(1, 0), Finish(1, 0, "a"), GotReply(1, "a")], [Init(), s1, s2, s3, FirstAnswered()]);
  }

  lemma CopyRunsAgain() returns (s: Sys)
    ensures Runs(FirstAnswered(), [Issue, Receive(2, 1), Receive(1, 0)], s) && Execs(s, 1) == [Some("a"), None]
  {
    FrontIs({1});
    FrontIsUnique({1}, 1, Front({1}, 0));
    var s5 := Apply(FirstAnswered(), Issue);
    assert s5.win == [Rep(1, Some("a"))] && (2, 1) in s5.reqs && (1, 0) in s5.reqs;
    assert DropAcked(s5.win, 1) == [] && Inserted([], 2) == [Rep(2, None)];
    var s6 := Apply(s5, Receive(2, 1));
    assert s6.win == [Rep(2, None)] && s6.reqs == s5.reqs && Execs(s6, 1) == [Some("a")];
    s := Apply(s6, Receive(1, 0));
    ChainRuns([Issue, Receive(2, 1), Receive(1, 0)], [FirstAnswered(), s5, s6, s]);
  }

  /** At most once does not extend past the acknowledgement: a run in which request 1 is executed a second time, its
      copy arriving after request 2 acknowledged it. */
  lemma CopyAfterAcknowledgementRunsAgain()
    ensures exists steps: seq<Step>, s: Sys :: Runs(Init(), steps, s) && Execs(s, 1) == [Some("a"), None]
  {
    FirstCall();
    var first := [Issue, Receive(1, 0), Finish(1, 0, "a"), GotReply(1, "a")];
    var second := [Issue, Receive(2, 1), Receive(1, 0)];
    var s := CopyRunsAgain();
    RunsConcat(Init(), first, FirstAnswered(), second, s);
  }

  lemma {:induction false} RunsConcat(s: Sys, xs: seq<Step>, t: Sys, ys: seq<Step>, u: Sys)
    requires Runs(s, xs, t) && Runs(t, ys, u)
    ensures Runs(s, xs + ys, u)
    decreases |xs|
  {
    if |xs| == 0 {
      assert xs + ys == ys;
    } else {
      RunsConcat(Apply(s, xs[0]), xs[1..], t, ys, u);
      assert (xs + ys)[1..] == xs[1..] + ys;
    }
  }

  /** A list of states linked by a list of steps is a run. */
  lemma {:induction false} ChainRuns(steps: seq<Step>, states: seq<Sys>)
    requires |states| == |steps| + 1
    requires forall i :: 0 <= i < |steps| ==>
               Enabled(states[i], steps[i]) && states[i + 1] == Apply(states[i], steps[i])
    ensures Runs(states[0], steps, states[|steps|])
    decreases |steps|
  {
    if |steps| > 0 {
      ChainRuns(steps[1..], states[1..]);
    }
  }
}
