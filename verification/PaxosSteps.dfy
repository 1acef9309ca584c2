/** Votes, commits, crashes and joins keep the invariant; hence every reachable state has it. */
module PaxosSteps {
  import opened PropNumbers
  import opened AcceptorSpec
  import opened ProposerSpec
  import opened Views
  import opened PaxosSystem
  import opened PaxosInvariant

  /** A vote is cast only at the number the acceptor promised last, although accepting never raises the promise. */
  lemma VoteIsAtPromise(s: State, r: nat, a: string)
    requires Inv(s) && AcceptReq(r, a) in s.net && a in s.acc && r in s.runs
    requires s.runs[r].instance == s.acc[a].instanceH + 1 && Ge(s.runs[r].n, s.acc[a].nH)
    ensures s.runs[r].n == s.acc[a].nH
  {
    assert MsgOk(s, AcceptReq(r, a));
    var nA: Prop, vA: string :| PrepareAns(r, a, Promised(nA, vA)) in s.net;
    assert MsgOk(s, PrepareAns(r, a, Promised(nA, vA)));
    GtTotalOrder(s.runs[r].n, s.acc[a].nH, s.runs[r].n);
    GtTotalOrder(s.acc[a].nH, s.runs[r].n, s.acc[a].nH);
  }

  lemma VoteUpdateKept(s: State, r: nat, a: string)
    requires Inv(s) && AcceptReq(r, a) in s.net && a in s.acc && r in s.runs
    requires s.runs[r].instance == s.acc[a].instanceH + 1 && Ge(s.runs[r].n, s.acc[a].nH)
    ensures Inv(WithAcc(s, a, Accept(s.acc[a], s.runs[r].instance, s.runs[r].n, s.runs[r].v).0))
    ensures AccAdvances(s.acc[a], Accept(s.acc[a], s.runs[r].instance, s.runs[r].n, s.runs[r].v).0)
  {
    var run := s.runs[r];
    var u := Accept(s.acc[a], run.instance, run.n, run.v).0;
    assert MsgOk(s, AcceptReq(r, a)) && RunOk(s, r) && AccOk(s, a);
    VoteIsAtPromise(s, r, a);
    assert PrepOk(s, r, run);
    VotesNeedViews(s, r, a);
    forall n: Prop | n.n > 0 && Ge(s.acc[a].nA, n)
      ensures Ge(u.nA, n)
    {
      GtTotalOrder(u.nA, s.acc[a].nA, n);
      GtTotalOrder(s.acc[a].nA, n, n);
      GtTotalOrder(u.nA, n, n);
      GtTotalOrder(s.acc[a].nH, s.acc[a].nA, n);
    }
    assert AccAdvances(s.acc[a], u);
    ExtendsByAcc(s, a, u);
    FactsKept(s, WithAcc(s, a, u));
    assert ProposedBy(run, run.instance, u.nA, u.vA);
    assert Proposed(s, run.instance, u.nA, u.vA);
    GtTotalOrder(u.nA, u.nH, u.nA);
    assert AccOk(WithAcc(s, a, u), a);
    AccUpdateKept(s, a, u);
  }

  lemma VotesNeedViews(s: State, r: nat, a: string)
    requires Inv(s) && AcceptReq(r, a) in s.net && r in s.runs
    ensures s.runs[r].instance > 1
  {
    assert MsgOk(s, AcceptReq(r, a));
    var nA: Prop, vA: string :| PrepareAns(r, a, Promised(nA, vA)) in s.net;
    assert MsgOk(s, PrepareAns(r, a, Promised(nA, vA)));
    AskedNodesHaveViews(s, r, a);
  }

  lemma VoteAddedKept(s: State, r: nat, a: string)
    requires Inv(s) && a in s.acc && r in s.runs && VoteOk(s, r, a)
    requires s.runs[r].instance == s.acc[a].instanceH + 1 && s.acc[a].nH == s.runs[r].n
    ensures Inv(WithMsg(s, AcceptAns(r, a, Ok(true))))
  {
    var m := AcceptAns(r, a, Ok(true));
    var t := WithMsg(s, m);
    ExtendsByMsg(s, m);
    FactsKept(s, t);
    forall x | x in t.net
      ensures MsgOk(t, x)
    {
      if x in s.net {
        OldMsgKept(s, r, a, x);
      } else {
        assert MsgOk(t, m);
      }
    }
    forall x | x in t.acc
      ensures AccOk(t, x)
    {
      AccKept(s, t, x);
    }
    forall q | q in t.runs
      ensures RunOk(t, q)
    {
      assert RunOk(s, q);
      RunKept(s, t, q);
    }
    PromisesKept(s, t);
  }

  /** The promises already given do not exceed the number now voted for. */
  lemma OldMsgKept(s: State, r: nat, a: string, x: Msg)
    requires Inv(s) && a in s.acc && r in s.runs && x in s.net
    requires s.runs[r].instance == s.acc[a].instanceH + 1 && s.acc[a].nH == s.runs[r].n
    ensures MsgOk(WithMsg(s, AcceptAns(r, a, Ok(true))), x)
  {
    var t := WithMsg(s, AcceptAns(r, a, Ok(true)));
    ExtendsByMsg(s, AcceptAns(r, a, Ok(true)));
    FactsKept(s, t);
    assert MsgOk(s, x);
    if x.PrepareAns? && x.pres.Promised? {
      var run := s.runs[x.r];
      forall q | q in s.runs && Voted(t, q, x.from) && s.runs[q].instance == run.instance && Gt(run.n, s.runs[q].n)
        ensures Ge(x.pres.nA, s.runs[q].n)
      {
        if !Voted(s, q, x.from) {
          GtTotalOrder(s.acc[a].nH, run.n, s.acc[a].nH);
        }
      }
    }
  }

  lemma HandleAcceptKept(s: State, r: nat, a: string)
    requires Inv(s) && AcceptReq(r, a) in s.net && a in s.acc && r in s.runs
    requires s.runs[r].instance <= s.acc[a].instanceH + 1
    ensures Inv(DoHandleAccept(s, r, a))
    ensures AccAdvances(s.acc[a], Accept(s.acc[a], s.runs[r].instance, s.runs[r].n, s.runs[r].v).0)
  {
    var run := s.runs[r];
    var (u, res) := Accept(s.acc[a], run.instance, run.n, run.v);
    assert MsgOk(s, AcceptReq(r, a));
    if res == Ok(true) {
      VoteIsAtPromise(s, r, a);
      VoteUpdateKept(s, r, a);
      var t := WithAcc(s, a, u);
      GtTotalOrder(run.n, run.n, run.n);
      var nA: Prop, vA: string :| PrepareAns(r, a, Promised(nA, vA)) in s.net;
      assert PrepareAns(r, a, Promised(nA, vA)) in t.net;
      assert VoteOk(t, r, a);
      VoteAddedKept(t, r, a);
    } else {
      assert WithAcc(s, a, u) == s;
      var m := AcceptAns(r, a, res);
      assert MsgOk(WithMsg(s, m), m);
      RequestKept(s, m);
    }
  }

  lemma RecvOldKept(s: State, r: nat, res: PrepareRes)
    requires Inv(s) && InPhase(s, r, Preparing) && s.runs[r].k < |s.runs[r].nodes| && res.OldInstance?
    requires PrepareAns(r, s.runs[r].nodes[s.runs[r].k], res) in s.net
    ensures Inv(DoRecvPrepare(s, r, res))
    ensures AccAdvances(s.acc[s.runs[r].node], Commit(s.acc[s.runs[r].node], s.runs[r].instance, res.v))
  {
    var run := s.runs[r];
    assert RunOk(s, r) && MsgOk(s, PrepareAns(r, run.nodes[run.k], res));
    CommitKept(s, run.node, run.instance, res.v);
    StopKept(WithAcc(s, run.node, Commit(s.acc[run.node], run.instance, res.v)), r);
  }

  lemma HandleDecideKept(s: State, r: nat, a: string)
    requires Inv(s) && DecideReq(r, a) in s.net && a in s.acc && r in s.runs
    requires s.runs[r].instance <= s.acc[a].instanceH + 1
    ensures Inv(WithAcc(s, a, Commit(s.acc[a], s.runs[r].instance, s.runs[r].v)))
    ensures AccAdvances(s.acc[a], Commit(s.acc[a], s.runs[r].instance, s.runs[r].v))
  {
    var run := s.runs[r];
    assert MsgOk(s, DecideReq(r, a)) && RunOk(s, r);
    assert PrepOk(s, r, run);
    assert DecidedBy(run, run.instance, run.v);
    assert Decided(s, run.instance, run.v);
    CommitKept(s, a, run.instance, run.v);
  }

  // ---- crash and join ----

  /** Every node can be rebuilt from its log. */
  ghost predicate LogsOk(s: State) {
    forall a :: a in s.acc ==> Sound(s.acc[a], a, a == s.first)
  }

  /** Replacing an acceptor by a matching one is not noticed by anything the invariant speaks of. */
  lemma MatchKept(s: State, a: string, u: AccState)
    requires Inv(s) && a in s.acc && Matches(s.acc[a], u) && (u.instanceH == 0 ==> u == Blank(a))
    ensures Inv(WithAcc(s, a, u)) && AccAdvances(s.acc[a], u)
  {
    var t := s.acc[a];
    assert AccOk(s, a);
    forall n: Prop | n.n > 0
      ensures Ge(t.nH, n) ==> Ge(u.nH, n)
      ensures Ge(t.nA, n) ==> Ge(u.nA, n)
    {
    }
    assert AccAdvances(t, u);
    ExtendsByAcc(s, a, u);
    FactsKept(s, WithAcc(s, a, u));
    forall i | 1 <= i <= u.instanceH
      ensures i in u.values && u.values[i] != "" && Decided(s, i, u.values[i])
    {
      assert ValueOf(t.values, i) == ValueOf(u.values, i);
    }
    assert ValueOf(t.values, 0) == ValueOf(u.values, 0);
    assert AccOk(WithAcc(s, a, u), a);
    AccUpdateKept(s, a, u);
  }

  lemma KilledKept(s: State, p: string)
    requires Inv(s)
    ensures Inv(s.(runs := Killed(s.runs, p)))
  {
    var t := s.(runs := Killed(s.runs, p));
    assert Extends(s, t) && NoNewVotes(s, t) && NoNewPromises(s, t);
    RestKept(s, t);
    forall r | r in t.runs
      ensures RunOk(t, r)
    {
      assert SameBut(s.runs[r], t.runs[r]);
    }
  }

  lemma CrashKept(s: State, p: string, used: nat)
    requires Inv(s) && LogsOk(s) && p in s.acc
    ensures Inv(DoCrash(s, p, used)) && LogsOk(DoCrash(s, p, used))
    ensures AccAdvances(s.acc[p], Restart(s.acc[p], p == s.first))
  {
    var u := Restart(s.acc[p], p == s.first);
    assert AccOk(s, p) && Sound(s.acc[p], p, p == s.first);
    RestartMatches(s.acc[p], p == s.first);
    MatchKept(s, p, u);
    PropKept(WithAcc(s, p, u), p, Proposer(true, used));
    KilledKept(WithProp(WithAcc(s, p, u), p, Proposer(true, used)), p);
  }

  /** Replaying a log onto two blank acceptors differs only in names of numbers whose counter is 0. */
  lemma {:induction false} ReplayFromBlank(p: string, q: string, log: seq<LogRec>)
    ensures Matches(Replay(Blank(q), log).(me := p), Replay(Blank(p), log))
    ensures Replay(Blank(q), log).values == Replay(Blank(p), log).values
  {
    if |log| > 0 {
      ReplayFromBlank(p, q, log[..|log| - 1]);
    }
  }

  /** A node without views that loads q's log gets q's views, promise and accepted proposal. */
  lemma JoinMatches(p: string, q: AccState)
    requires Recoverable(q)
    ensures Matches(q.(me := p), Replay(Blank(p), q.log).(log := q.log))
    ensures Sound(Replay(Blank(p), q.log).(log := q.log), p, false)
  {
    ReplayFromBlank(p, q.me, q.log);
    ReplayKeepsNameAndLog(Blank(p), q.log);
    var x := Replay(Blank(q.me), q.log);
    var u := Replay(Blank(p), q.log);
    assert Matches(q, x);
    forall i: nat
      ensures ValueOf(q.values, i) == ValueOf(u.values, i)
    {
      assert ValueOf(q.values, i) == ValueOf(x.values, i);
    }
  }

  /** The dump of a node in order is in order. */
  lemma DumpIsOk(s: State, q: string)
    requires Inv(s) && LogsOk(s) && q in s.acc
    ensures DumpOk(s, s.acc[q].log)
  {
    var o := s.acc[q];
    assert AccOk(s, q) && Sound(o, q, q == s.first);
    forall p
      ensures AccFacts(s, Replay(Blank(p), o.log)) && (Replay(Blank(p), o.log).instanceH == 0 ==> o.log == [])
    {
      JoinMatches(p, o);
      MatchFacts(s, o.(me := p), Replay(Blank(p), o.log).(log := o.log));
    }
  }

  lemma MatchFacts(s: State, t: AccState, u: AccState)
    requires AccFacts(s, t) && Matches(t, u)
    ensures AccFacts(s, u)
  {
    assert ValueOf(t.values, 0) == ValueOf(u.values, 0);
    forall i | 1 <= i <= u.instanceH
      ensures i in u.values && u.values[i] != "" && Decided(s, i, u.values[i])
    {
      assert ValueOf(t.values, i) == ValueOf(u.values, i);
    }
  }

  lemma DumpStepKept(s: State, q: string)
    requires Inv(s) && LogsOk(s) && q in s.acc
    ensures Inv(WithMsg(s, LogDump(s.acc[q].log)))
  {
    var m := LogDump(s.acc[q].log);
    DumpIsOk(s, q);
    ExtendsByMsg(s, m);
    DumpKept(s, WithMsg(s, m), s.acc[q].log);
    assert MsgOk(WithMsg(s, m), m);
    RequestKept(s, m);
  }

  lemma JoinLogsKept(s: State, p: string, log: seq<LogRec>)
    requires Inv(s) && LogsOk(s) && p in s.acc && s.acc[p].instanceH == 0
    ensures LogsOk(DoJoin(s, p, log)) && DoJoin(s, p, log).acc[p] == Replay(Blank(p), log).(log := log)
  {
    assert AccOk(s, p);
    ReplayKeepsNameAndLog(Blank(p), log);
  }

  /** Loading a dump, however old, keeps the invariant. */
  lemma JoinKept(s: State, p: string, log: seq<LogRec>)
    requires Inv(s) && LogsOk(s) && p in s.acc && s.acc[p].instanceH == 0 && LogDump(log) in s.net
    ensures Inv(DoJoin(s, p, log)) && AccAdvances(s.acc[p], DoJoin(s, p, log).acc[p])
  {
    JoinLogsKept(s, p, log);
    ReplayKeepsNameAndLog(Blank(p), log);
    assert AccOk(s, p) && MsgOk(s, LogDump(log));
    var u := Replay(Blank(p), log).(log := log);
    assert AccFacts(s, Replay(Blank(p), log));
    assert AccAdvances(s.acc[p], u);
    ExtendsByAcc(s, p, u);
    FactsKept(s, WithAcc(s, p, u));
    assert AccOk(WithAcc(s, p, u), p);
    AccUpdateKept(s, p, u);
  }

  // ---- all steps ----

  lemma InitOk(s: State)
    requires Init(s)
    ensures Inv(s) && LogsOk(s)
  {
    forall a | a in s.acc
      ensures AccOk(s, a) && Sound(s.acc[a], a, a == s.first)
    {
      SoundAtFirst(a, a == s.first);
      assert Replay(Blank(a), []) == Blank(a);
    }
  }

  lemma ProposerStepKept(s: State, st: Step)
    requires Inv(s) && Enabled(s, st) && NoLag(s, st)
    requires !st.HandlePrepare? && !st.HandleAccept? && !st.HandleDecide? && !st.Crash? && !st.Dump? && !st.Join?
    ensures Inv(Apply(s, st))
  {
    match st {
      case Start(p, r, j, newV) => StartKept(s, p, r, j, newV);
      case SendPrepare(r) => SendPrepareKept(s, r);
      case RecvPrepare(r, res) => if res.OldInstance? { RecvOldKept(s, r, res); } else { RecvPromiseKept(s, r, res); }
      case SkipPrepare(r) => MovedKept(s, r);
      case EndPrepare(r) => EndPrepareKept(s, r);
      case SendAccept(r) => SendAcceptKept(s, r);
      case RecvAccept(r, res) => RecvAcceptKept(s, r, res);
      case SkipAccept(r) => MovedKept(s, r);
      case EndAccept(r) => EndAcceptKept(s, r);
      case SendDecide(r) => SendDecideKept(s, r);
      case EndRun(r) => StopKept(s, r);
    }
  }

  lemma AcceptorStepKept(s: State, st: Step)
    requires Inv(s) && LogsOk(s) && Enabled(s, st) && NoLag(s, st)
    requires st.HandlePrepare? || st.HandleAccept? || st.HandleDecide? || st.Crash? || st.Dump? || st.Join?
    ensures Inv(Apply(s, st))
  {
    hide Inv, LogsOk;
    match st {
      case HandlePrepare(r, a) => HandlePrepareKept(s, r, a);
      case HandleAccept(r, a) => HandleAcceptKept(s, r, a);
      case HandleDecide(r, a) => HandleDecideKept(s, r, a);
      case Crash(p, used) => CrashKept(s, p, used);
      case Dump(q) => DumpStepKept(s, q);
      case Join(p, log) => JoinKept(s, p, log);
    }
  }

  /** Every step keeps the invariant. */
  lemma StepKept(s: State, st: Step)
    requires Inv(s) && LogsOk(s) && Enabled(s, st) && NoLag(s, st)
    ensures Inv(Apply(s, st))
  {
    if st.HandlePrepare? || st.HandleAccept? || st.HandleDecide? || st.Crash? || st.Dump? || st.Join? {
      AcceptorStepKept(s, st);
    } else {
      ProposerStepKept(s, st);
    }
  }

  /** The logs stay good on any step at all, lagging requests included. */
  lemma LogsKept(s: State, st: Step)
    requires LogsOk(s) && Enabled(s, st) && !st.Join?
    ensures LogsOk(Apply(s, st)) && Apply(s, st).first == s.first
  {
    hide Sound;
    var t := Apply(s, st);
    forall a | a in t.acc
      ensures Sound(t.acc[a], a, a == s.first)
    {
      assert Sound(s.acc[a], a, a == s.first);
      if t.acc[a] != s.acc[a] {
        var e := EventOf(s, st);
        assert t.acc[a] == After(s.acc[a], a == s.first, e);
        SoundKept(s.acc[a], a, a == s.first, e);
      }
    }
  }

  /** What a step means to the one acceptor it changes. */
  function EventOf(s: State, st: Step): Event
    requires Enabled(s, st)
  {
    match st
    case HandlePrepare(r, a) => EvPrepare(s.runs[r].instance, s.runs[r].n)
    case HandleAccept(r, a) => EvAccept(s.runs[r].instance, s.runs[r].n, s.runs[r].v)
    case HandleDecide(r, a) => EvCommit(s.runs[r].instance, s.runs[r].v)
    case RecvPrepare(r, res) => if res.OldInstance? then EvCommit(s.runs[r].instance, res.v) else EvRestart
    case _ => EvRestart
  }

  /** A step that adds or advances one run, and may send something, takes nothing back. */
  lemma OneRunExtends(s: State, r: nat, t: State)
    requires t.first == s.first && t.acc == s.acc && s.net <= t.net
    requires r in t.runs && t.runs == s.runs[r := t.runs[r]] && (r in s.runs ==> RunAdvances(s.runs[r], t.runs[r]))
    ensures Extends(s, t)
  {
  }

  lemma SendExtends(s: State, m: Msg)
    ensures Extends(s, WithMsg(s, m))
  {
  }

  lemma StartExtends(s: State, p: string, r: nat, j: nat, newV: string)
    requires Enabled(s, Start(p, r, j, newV))
    ensures Extends(s, Apply(s, Start(p, r, j, newV)))
  {
    hide Extends, Members;
    OneRunExtends(s, r, Apply(s, Start(p, r, j, newV)));
  }

  /** The ends of the two loops. */
  lemma PhaseEndExtends(s: State, r: nat)
    ensures InPhase(s, r, Preparing) ==> Extends(s, DoEndPrepare(s, r))
    ensures InPhase(s, r, Accepting) ==> Extends(s, DoEndAccept(s, r))
  {
    hide Extends, Majority;
    if InPhase(s, r, Preparing) {
      OneRunExtends(s, r, DoEndPrepare(s, r));
    } else if InPhase(s, r, Accepting) {
      OneRunExtends(s, r, DoEndAccept(s, r));
    }
  }

  /** A turn of one of the three loops, or the return. */
  lemma TurnExtends(s: State, r: nat, res: AcceptRes, m: Msg)
    requires r in s.runs && s.runs[r].node in s.prop
    ensures Extends(s, Moved(s, r)) && Extends(s, Moved(WithMsg(s, m), r)) && Extends(s, Stop(s, r))
    ensures InPhase(s, r, Accepting) && s.runs[r].k < |s.runs[r].prep.accepts| ==> Extends(s, DoRecvAccept(s, r, res))
  {
    hide Extends;
    OneRunExtends(s, r, Moved(s, r));
    OneRunExtends(s, r, Moved(WithMsg(s, m), r));
    OneRunExtends(s, r, Stop(s, r));
    if InPhase(s, r, Accepting) && s.runs[r].k < |s.runs[r].prep.accepts| {
      OneRunExtends(s, r, DoRecvAccept(s, r, res));
    }
  }

  lemma ProposerStepExtends(s: State, st: Step)
    requires Enabled(s, st) && !st.RecvPrepare?
    requires !st.HandlePrepare? && !st.HandleAccept? && !st.HandleDecide? && !st.Crash? && !st.Join?
    ensures Extends(s, Apply(s, st))
  {
    hide Extends, Moved, Stop, DoEndPrepare, DoEndAccept, DoRecvAccept, WithMsg;
    match st {
      case Start(p, r, j, newV) => StartExtends(s, p, r, j, newV);
      case SendPrepare(r) => SendExtends(s, PrepareReq(r, s.runs[r].nodes[s.runs[r].k]));
      case SkipPrepare(r) => TurnExtends(s, r, Err, LogDump([]));
      case EndPrepare(r) => PhaseEndExtends(s, r);
      case SendAccept(r) => SendExtends(s, AcceptReq(r, s.runs[r].prep.accepts[s.runs[r].k]));
      case RecvAccept(r, res) => TurnExtends(s, r, res, LogDump([]));
      case SkipAccept(r) => TurnExtends(s, r, Err, LogDump([]));
      case EndAccept(r) => PhaseEndExtends(s, r);
      case SendDecide(r) => TurnExtends(s, r, Err, DecideReq(r, s.runs[r].voters[s.runs[r].k]));
      case EndRun(r) => TurnExtends(s, r, Err, LogDump([]));
      case Dump(q) => SendExtends(s, LogDump(s.acc[q].log));
    }
  }

  lemma AcceptorStepExtends(s: State, st: Step)
    requires Inv(s) && LogsOk(s) && Enabled(s, st) && NoLag(s, st)
    requires st.HandlePrepare? || st.HandleAccept? || st.HandleDecide?
    ensures Extends(s, Apply(s, st))
  {
    hide Inv, LogsOk, AccAdvances, Extends;
    match st {
      case HandlePrepare(r, a) =>
        HandlePrepareKept(s, r, a);
        AccStepExtends(s, a, Apply(s, st));
      case HandleAccept(r, a) =>
        HandleAcceptKept(s, r, a);
        AccStepExtends(s, a, Apply(s, st));
      case HandleDecide(r, a) =>
        HandleDecideKept(s, r, a);
        AccStepExtends(s, a, Apply(s, st));
    }
  }

  lemma AccStepExtends(s: State, a: string, t: State)
    requires a in s.acc && a in t.acc && t.acc == s.acc[a := t.acc[a]] && AccAdvances(s.acc[a], t.acc[a])
    requires t.first == s.first && s.net <= t.net && s.runs.Keys == t.runs.Keys
    requires forall r :: r in s.runs ==> RunAdvances(s.runs[r], t.runs[r])
    ensures Extends(s, t)
  {
  }

  lemma CrashExtends(s: State, p: string, used: nat)
    requires Inv(s) && LogsOk(s) && p in s.acc
    ensures Extends(s, DoCrash(s, p, used))
  {
    hide Inv, LogsOk, AccAdvances, Restart;
    CrashKept(s, p, used);
    AccStepExtends(s, p, DoCrash(s, p, used));
  }

  lemma JoinExtends(s: State, p: string, log: seq<LogRec>)
    requires Inv(s) && LogsOk(s) && p in s.acc && s.acc[p].instanceH == 0 && LogDump(log) in s.net
    ensures Extends(s, DoJoin(s, p, log))
  {
    JoinKept(s, p, log);
    AccStepExtends(s, p, DoJoin(s, p, log));
  }

  lemma RecvPrepareExtends(s: State, r: nat, res: PrepareRes)
    requires Inv(s) && InPhase(s, r, Preparing) && s.runs[r].k < |s.runs[r].nodes|
    requires PrepareAns(r, s.runs[r].nodes[s.runs[r].k], res) in s.net
    ensures Extends(s, DoRecvPrepare(s, r, res))
  {
  }

  /** No step takes anything back: decided values stay, and within an instance a node's promised and accepted
      numbers never decrease, crashes included. */
  lemma StepExtends(s: State, st: Step)
    requires Inv(s) && LogsOk(s) && Enabled(s, st) && NoLag(s, st)
    ensures Extends(s, Apply(s, st))
  {
    hide Inv, LogsOk, Extends;
    if st.Crash? {
      CrashExtends(s, st.p, st.used);
    } else if st.Join? {
      JoinExtends(s, st.p, st.log);
    } else if st.RecvPrepare? {
      RecvPrepareExtends(s, st.r, st.pres);
    } else if st.HandlePrepare? || st.HandleAccept? || st.HandleDecide? {
      AcceptorStepExtends(s, st);
    } else {
      ProposerStepExtends(s, st);
    }
  }

  lemma ExtendsTransitive(s: State, t: State, u: State)
    requires Extends(s, t) && Extends(t, u)
    ensures Extends(s, u)
  {
    forall a | a in s.acc
      ensures AccAdvances(s.acc[a], u.acc[a])
    {
      assert AccAdvances(s.acc[a], t.acc[a]) && AccAdvances(t.acc[a], u.acc[a]);
    }
    forall r | r in s.runs
      ensures RunAdvances(s.runs[r], u.runs[r])
    {
      assert RunAdvances(s.runs[r], t.runs[r]) && RunAdvances(t.runs[r], u.runs[r]);
    }
  }

  /** Every state a run reaches has the invariant, and every node can be rebuilt from its log. */
  lemma {:induction false} RunsKept(s: State, steps: seq<Step>, t: State)
    requires Inv(s) && LogsOk(s) && Runs(s, steps, t)
    ensures Inv(t) && LogsOk(t) && Extends(s, t)
    decreases |steps|
  {
    if |steps| > 0 {
      var st := steps[0];
      StepKept(s, st);
      StepExtends(s, st);
      if st.Join? {
        JoinLogsKept(s, st.p, st.log);
      } else {
        LogsKept(s, st);
      }
      RunsKept(Apply(s, st), steps[1..], t);
      ExtendsTransitive(s, Apply(s, st), t);
    }
  }

  lemma Reachable(s0: State, steps: seq<Step>, s: State)
    requires Init(s0) && Runs(s0, steps, s)
    ensures Inv(s) && LogsOk(s)
  {
    InitOk(s0);
    RunsKept(s0, steps, s);
  }
}
