/** What every step of the Paxos system keeps. */
module PaxosInvariant {
  import opened PropNumbers
  import opened AcceptorSpec
  import opened ProposerSpec
  import opened Views
  import opened PaxosSystem

  /** Some run of instance j has proposed v with number n. */
  ghost predicate Proposed(s: State, j: nat, n: Prop, v: string) {
    exists r :: r in s.runs && ProposedBy(s.runs[r], j, n, v)
  }

  predicate ProposedBy(run: Run, j: nat, n: Prop, v: string) {
    run.instance == j && run.n == n && run.phase != Preparing && run.v == v
  }

  /** v was decided for instance j: view 1 by construction, later ones by a run that saw a majority accept. */
  ghost predicate Decided(s: State, j: nat, v: string) {
    (j == 1 && v == s.first) || exists r :: r in s.runs && DecidedBy(s.runs[r], j, v)
  }

  predicate DecidedBy(run: Run, j: nat, v: string) {
    run.instance == j && run.phase == Deciding && run.v == v
  }

  ghost predicate HasPromised(s: State, r: nat, a: string) {
    exists nA: Prop, vA: string :: PrepareAns(r, a, Promised(nA, vA)) in s.net
  }

  predicate Voted(s: State, r: nat, a: string) {
    AcceptAns(r, a, Ok(true)) in s.net
  }

  ghost predicate AccOk(s: State, a: string)
    requires a in s.acc
  {
    var t := s.acc[a];
    && t.me == a
    && (a == s.first ==> t.instanceH > 0)
    && (t.instanceH == 0 ==> t == Blank(a))
    && AccFacts(s, t)
  }

  /** The views t holds are decided, and what it accepted for the next one was proposed. */
  ghost predicate AccFacts(s: State, t: AccState) {
    && (forall i :: 1 <= i <= t.instanceH ==> i in t.values && t.values[i] != "" && Decided(s, i, t.values[i]))
    && ValueOf(t.values, 0) == ""
    && (t.nA.n == 0 <==> t.vA == "")
    && (t.nA.n > 0 ==> Ge(t.nH, t.nA) && Proposed(s, t.instanceH + 1, t.nA, t.vA))
  }

  ghost predicate RunOk(s: State, r: nat)
    requires r in s.runs
  {
    var run := s.runs[r];
    && run.node in s.acc && run.n.n > 0 && run.newV != ""
    && 1 <= run.instance <= s.acc[run.node].instanceH + 1
    && run.nodes == Members(ValueOf(s.acc[run.node].values, run.instance - 1))
    && PrepOk(s, r, run)
    && (forall a :: a in run.voters ==> Voted(s, r, a))
    && (run.phase == Preparing ==> run.voters == [])
    && (run.phase != Preparing ==>
          && Majority(run.nodes, run.prep.accepts)
          && run.v == (if run.prep.v == "" then run.newV else run.prep.v))
    && (run.phase == Deciding ==> Majority(run.nodes, run.voters))
  }

  /** The prepare loop holds the highest report of the promisers it counted. */
  ghost predicate PrepOk(s: State, r: nat, run: Run) {
    && (forall a :: a in run.prep.accepts ==> ReportAtMost(s, r, a, run.prep.max))
    && (run.prep.max.n == 0 <==> run.prep.v == "")
    && (run.prep.max.n > 0 ==> Gt(run.n, run.prep.max) && Proposed(s, run.instance, run.prep.max, run.prep.v))
  }

  ghost predicate ReportAtMost(s: State, r: nat, a: string, max: Prop) {
    exists nA: Prop, vA: string :: PrepareAns(r, a, Promised(nA, vA)) in s.net && Ge(max, nA)
  }

  /** A promise by a to run r that reported nA: a votes below r's number are all covered by nA. */
  ghost predicate PromiseOk(s: State, r: nat, a: string, nA: Prop, vA: string)
    requires r in s.runs
  {
    var run := s.runs[r];
    && a in s.acc && run.instance <= s.acc[a].instanceH + 1
    && Gt(run.n, nA) && (nA.n == 0 <==> vA == "")
    && (nA.n > 0 ==> Proposed(s, run.instance, nA, vA))
    && (s.acc[a].instanceH < run.instance ==> Ge(s.acc[a].nH, run.n))
    && (forall q :: q in s.runs && Voted(s, q, a) && s.runs[q].instance == run.instance && Gt(run.n, s.runs[q].n)
          ==> Ge(nA, s.runs[q].n))
  }

  ghost predicate VoteOk(s: State, r: nat, a: string)
    requires r in s.runs
  {
    var run := s.runs[r];
    && a in s.acc && run.phase != Preparing && HasPromised(s, r, a) && run.instance <= s.acc[a].instanceH + 1
    && (s.acc[a].instanceH < run.instance ==> Ge(s.acc[a].nH, run.n) && Ge(s.acc[a].nA, run.n))
  }

  /** Whoever loads the dump gets facts that stay true, so the dump may be late. */
  ghost predicate DumpOk(s: State, log: seq<LogRec>) {
    forall p {:trigger Replay(Blank(p), log)} ::
      AccFacts(s, Replay(Blank(p), log)) && (Replay(Blank(p), log).instanceH == 0 ==> log == [])
  }

  ghost predicate MsgOk(s: State, m: Msg) {
    match m
    case PrepareReq(r, to) => r in s.runs && to in s.runs[r].nodes
    case PrepareAns(r, from, res) =>
      && r in s.runs && from in s.runs[r].nodes
      && (res.OldInstance? ==> Decided(s, s.runs[r].instance, res.v) && res.v != "")
      && (res.Promised? ==> PromiseOk(s, r, from, res.nA, res.vA))
    case AcceptReq(r, to) => r in s.runs && s.runs[r].phase != Preparing && HasPromised(s, r, to)
    case AcceptAns(r, from, res) => r in s.runs && (res == Ok(true) ==> VoteOk(s, r, from))
    case DecideReq(r, to) => r in s.runs && s.runs[r].phase == Deciding
    case LogDump(log) => DumpOk(s, log)
  }

  /** An acceptor promises a number of an instance to one run only. */
  ghost predicate PromisesUnique(s: State) {
    forall a, r, q | HasPromised(s, r, a) && HasPromised(s, q, a) && r in s.runs && q in s.runs ::
      s.runs[r].instance == s.runs[q].instance && s.runs[r].n == s.runs[q].n ==> r == q
  }

  ghost predicate Inv(s: State) {
    && s.first != ""
    && (forall a {:trigger AccOk(s, a)} :: a in s.acc ==> AccOk(s, a))
    && (forall r {:trigger RunOk(s, r)} :: r in s.runs ==> RunOk(s, r))
    && (forall m {:trigger MsgOk(s, m)} :: m in s.net ==> MsgOk(s, m))
    && PromisesUnique(s)
  }

  // ---- what a step never takes back ----

  ghost predicate AccAdvances(t: AccState, u: AccState) {
    && t.instanceH <= u.instanceH
    && (forall i: nat :: i <= t.instanceH ==> ValueOf(t.values, i) == ValueOf(u.values, i))
    && (t.instanceH == u.instanceH ==> forall n: Prop :: n.n > 0 ==>
          && (Ge(t.nH, n) ==> Ge(u.nH, n))
          && (Ge(t.nA, n) ==> Ge(u.nA, n)))
  }

  predicate RunAdvances(run: Run, sun: Run) {
    && run.node == sun.node && run.instance == sun.instance && run.n == sun.n
    && run.nodes == sun.nodes && run.newV == sun.newV
    && (run.phase != Preparing ==> sun.phase != Preparing && run.v == sun.v && run.prep == sun.prep)
    && (run.phase == Deciding ==> sun.phase == Deciding)
  }

  /** Equal up to the loop position and whether the run has returned. */
  predicate SameBut(run: Run, sun: Run) {
    sun.(live := run.live, k := run.k) == run
  }

  ghost predicate Extends(s: State, t: State) {
    && s.first == t.first && s.acc.Keys == t.acc.Keys && s.net <= t.net && s.runs.Keys <= t.runs.Keys
    && (forall a {:trigger AccAdvances(s.acc[a], t.acc[a])} :: a in s.acc ==> AccAdvances(s.acc[a], t.acc[a]))
    && (forall r {:trigger RunAdvances(s.runs[r], t.runs[r])} :: r in s.runs ==> RunAdvances(s.runs[r], t.runs[r]))
  }

  ghost predicate NoNewVotes(s: State, t: State) {
    forall r, a :: Voted(t, r, a) ==> Voted(s, r, a)
  }

  ghost predicate NoNewPromises(s: State, t: State) {
    forall r, a, res: PrepareRes :: PrepareAns(r, a, res) in t.net && res.Promised? ==> PrepareAns(r, a, res) in s.net
  }

  lemma FactsKept(s: State, t: State)
    requires Extends(s, t)
    ensures forall j: nat, n: Prop, v: string :: Proposed(s, j, n, v) ==> Proposed(t, j, n, v)
    ensures forall j: nat, v: string :: Decided(s, j, v) ==> Decided(t, j, v)
    ensures forall r, a :: HasPromised(s, r, a) ==> HasPromised(t, r, a)
    ensures forall r, a, max: Prop :: ReportAtMost(s, r, a, max) ==> ReportAtMost(t, r, a, max)
  {
    forall j: nat, n: Prop, v: string | Proposed(s, j, n, v)
      ensures Proposed(t, j, n, v)
    {
      var r :| r in s.runs && ProposedBy(s.runs[r], j, n, v);
      assert RunAdvances(s.runs[r], t.runs[r]) && ProposedBy(t.runs[r], j, n, v);
    }
    forall j: nat, v: string | Decided(s, j, v)
      ensures Decided(t, j, v)
    {
      if !(j == 1 && v == s.first) {
        var r :| r in s.runs && DecidedBy(s.runs[r], j, v);
        assert RunAdvances(s.runs[r], t.runs[r]) && DecidedBy(t.runs[r], j, v);
      }
    }
    forall r, a | HasPromised(s, r, a)
      ensures HasPromised(t, r, a)
    {
      var nA: Prop, vA: string :| PrepareAns(r, a, Promised(nA, vA)) in s.net;
      assert PrepareAns(r, a, Promised(nA, vA)) in t.net;
    }
    forall r, a, max: Prop | ReportAtMost(s, r, a, max)
      ensures ReportAtMost(t, r, a, max)
    {
      var nA: Prop, vA: string :| PrepareAns(r, a, Promised(nA, vA)) in s.net && Ge(max, nA);
      assert PrepareAns(r, a, Promised(nA, vA)) in t.net;
    }
  }

  lemma DumpKept(s: State, t: State, log: seq<LogRec>)
    requires Extends(s, t) && DumpOk(s, log)
    ensures DumpOk(t, log)
  {
    FactsKept(s, t);
    forall p
      ensures AccFacts(t, Replay(Blank(p), log))
    {
      assert AccFacts(s, Replay(Blank(p), log));
    }
  }

  /** A message that was fine stays fine when no vote is added. */
  lemma MsgKept(s: State, t: State, m: Msg)
    requires Inv(s) && Extends(s, t) && NoNewVotes(s, t) && m in s.net
    ensures MsgOk(t, m)
  {
    FactsKept(s, t);
    assert MsgOk(s, m);
    match m {
      case PrepareReq(r, to) => assert RunAdvances(s.runs[r], t.runs[r]);
      case PrepareAns(r, from, res) =>
        assert RunAdvances(s.runs[r], t.runs[r]) && RunOk(s, r);
        if res.Promised? {
          assert AccAdvances(s.acc[from], t.acc[from]);
          forall q | q in t.runs && Voted(t, q, from) && t.runs[q].instance == t.runs[r].instance
                    && Gt(t.runs[r].n, t.runs[q].n)
            ensures Ge(res.nA, t.runs[q].n)
          {
            assert Voted(s, q, from) && MsgOk(s, AcceptAns(q, from, Ok(true)));
            assert RunAdvances(s.runs[q], t.runs[q]);
          }
        }
      case AcceptReq(r, to) => assert RunAdvances(s.runs[r], t.runs[r]);
      case AcceptAns(r, from, res) =>
        assert RunAdvances(s.runs[r], t.runs[r]) && RunOk(s, r);
        if res == Ok(true) {
          assert AccAdvances(s.acc[from], t.acc[from]);
        }
      case DecideReq(r, to) => assert RunAdvances(s.runs[r], t.runs[r]);
      case LogDump(log) => DumpKept(s, t, log);
    }
  }

  lemma RunKept(s: State, t: State, r: nat)
    requires Extends(s, t) && r in s.runs && RunOk(s, r) && SameBut(s.runs[r], t.runs[r])
    ensures RunOk(t, r)
  {
    FactsKept(s, t);
    assert AccAdvances(s.acc[s.runs[r].node], t.acc[s.runs[r].node]);
  }

  lemma AccKept(s: State, t: State, a: string)
    requires Inv(s) && Extends(s, t) && a in s.acc && s.acc[a] == t.acc[a]
    ensures AccOk(t, a)
  {
    FactsKept(s, t);
    assert AccOk(s, a);
  }

  lemma PromisesKept(s: State, t: State)
    requires Inv(s) && Extends(s, t) && NoNewPromises(s, t)
    ensures PromisesUnique(t)
  {
    forall a, r, q | HasPromised(t, r, a) && HasPromised(t, q, a) && r in t.runs && q in t.runs
      ensures t.runs[r].instance == t.runs[q].instance && t.runs[r].n == t.runs[q].n ==> r == q
    {
      var n1: Prop, v1: string :| PrepareAns(r, a, Promised(n1, v1)) in t.net;
      var n2: Prop, v2: string :| PrepareAns(q, a, Promised(n2, v2)) in t.net;
      assert PrepareAns(r, a, Promised(n1, v1)) in s.net && PrepareAns(q, a, Promised(n2, v2)) in s.net;
      assert MsgOk(s, PrepareAns(r, a, Promised(n1, v1))) && MsgOk(s, PrepareAns(q, a, Promised(n2, v2)));
      assert HasPromised(s, r, a) && HasPromised(s, q, a);
      assert RunAdvances(s.runs[r], t.runs[r]) && RunAdvances(s.runs[q], t.runs[q]);
    }
  }

  /** Changing the proposers' own fields touches nothing the invariant speaks of. */
  lemma PropKept(s: State, p: string, x: Proposer)
    requires Inv(s)
    ensures Inv(WithProp(s, p, x))
  {
    RestKept(s, WithProp(s, p, x));
  }

  /** Everything that did not change stays in order. */
  lemma RestKept(s: State, t: State)
    requires Inv(s) && Extends(s, t) && NoNewVotes(s, t) && NoNewPromises(s, t)
    ensures forall a {:trigger AccOk(t, a)} :: a in t.acc && s.acc[a] == t.acc[a] ==> AccOk(t, a)
    ensures forall r {:trigger RunOk(t, r)} :: r in s.runs && SameBut(s.runs[r], t.runs[r]) ==> RunOk(t, r)
    ensures forall m {:trigger MsgOk(t, m)} :: m in s.net ==> MsgOk(t, m)
    ensures PromisesUnique(t)
  {
    PromisesKept(s, t);
    forall a | a in t.acc && s.acc[a] == t.acc[a]
      ensures AccOk(t, a)
    {
      AccKept(s, t, a);
    }
    forall r | r in s.runs && SameBut(s.runs[r], t.runs[r])
      ensures RunOk(t, r)
    {
      RunKept(s, t, r);
    }
    forall m | m in s.net
      ensures MsgOk(t, m)
    {
      MsgKept(s, t, m);
    }
  }

  lemma ExtendsByRun(s: State, r: nat, run: Run)
    requires r in s.runs ==> RunAdvances(s.runs[r], run)
    ensures var t := WithRun(s, r, run); Extends(s, t) && NoNewVotes(s, t) && NoNewPromises(s, t)
  {
  }

  lemma ExtendsByMsg(s: State, m: Msg)
    ensures var t := WithMsg(s, m);
            && Extends(s, t)
            && (!(m.AcceptAns? && m.ares == Ok(true)) ==> NoNewVotes(s, t))
            && (!(m.PrepareAns? && m.pres.Promised?) ==> NoNewPromises(s, t))
  {
  }

  lemma ExtendsByAcc(s: State, a: string, u: AccState)
    requires a in s.acc && AccAdvances(s.acc[a], u)
    ensures var t := WithAcc(s, a, u); Extends(s, t) && NoNewVotes(s, t) && NoNewPromises(s, t)
  {
  }

  lemma RunUpdateKept(s: State, r: nat, run: Run)
    requires Inv(s) && (r in s.runs ==> RunAdvances(s.runs[r], run))
    requires RunOk(WithRun(s, r, run), r)
    ensures Inv(WithRun(s, r, run))
  {
    ExtendsByRun(s, r, run);
    RestKept(s, WithRun(s, r, run));
  }

  lemma RequestKept(s: State, m: Msg)
    requires Inv(s) && MsgOk(WithMsg(s, m), m)
    requires (m.PrepareAns? ==> !m.pres.Promised?) && (m.AcceptAns? ==> m.ares != Ok(true))
    ensures Inv(WithMsg(s, m))
  {
    ExtendsByMsg(s, m);
    RestKept(s, WithMsg(s, m));
  }

  lemma AccUpdateKept(s: State, a: string, u: AccState)
    requires Inv(s) && a in s.acc && AccAdvances(s.acc[a], u) && AccOk(WithAcc(s, a, u), a)
    ensures Inv(WithAcc(s, a, u))
  {
    ExtendsByAcc(s, a, u);
    RestKept(s, WithAcc(s, a, u));
  }

  // ---- proposer steps ----

  lemma StopKept(s: State, r: nat)
    requires Inv(s) && r in s.runs && s.runs[r].node in s.prop
    ensures Inv(Stop(s, r))
  {
    var run := s.runs[r].(live := false);
    assert RunOk(s, r);
    ExtendsByRun(s, r, run);
    RunKept(s, WithRun(s, r, run), r);
    RunUpdateKept(s, r, run);
    PropKept(WithRun(s, r, run), run.node, s.prop[run.node].(stable := true));
  }

  lemma MovedKept(s: State, r: nat)
    requires Inv(s) && r in s.runs
    ensures Inv(Moved(s, r))
  {
    var run := s.runs[r].(k := s.runs[r].k + 1);
    assert RunOk(s, r);
    ExtendsByRun(s, r, run);
    RunKept(s, WithRun(s, r, run), r);
    RunUpdateKept(s, r, run);
  }

  lemma StartKept(s: State, p: string, r: nat, j: nat, newV: string)
    requires Inv(s) && p in s.acc && p in s.prop && r !in s.runs && newV != "" && 1 <= j <= s.acc[p].instanceH + 1
    ensures Inv(WithProp(WithRun(s, r, NewRun(s, p, j, newV)), p, Proposer(false, NewRun(s, p, j, newV).n.n)))
  {
    var run := NewRun(s, p, j, newV);
    assert RunOk(WithRun(s, r, run), r);
    RunUpdateKept(s, r, run);
    PropKept(WithRun(s, r, run), p, Proposer(false, run.n.n));
  }

  lemma RecvPromiseKept(s: State, r: nat, res: PrepareRes)
    requires Inv(s) && InPhase(s, r, Preparing) && s.runs[r].k < |s.runs[r].nodes| && !res.OldInstance?
    requires PrepareAns(r, s.runs[r].nodes[s.runs[r].k], res) in s.net
    ensures Inv(DoRecvPrepare(s, r, res))
  {
    var run := s.runs[r];
    var a := run.nodes[run.k];
    var run' := run.(prep := PrepareOne(run.prep, a, res), k := run.k + 1);
    assert RunOk(s, r) && MsgOk(s, PrepareAns(r, a, res));
    PrepKept(s, r, res);
    ExtendsByRun(s, r, run');
    FactsKept(s, WithRun(s, r, run'));
    assert RunOk(WithRun(s, r, run'), r);
    RunUpdateKept(s, r, run');
  }

  lemma PrepKept(s: State, r: nat, res: PrepareRes)
    requires r in s.runs && s.runs[r].k < |s.runs[r].nodes| && PrepOk(s, r, s.runs[r]) && s.runs[r].n.n > 0
    requires var a := s.runs[r].nodes[s.runs[r].k]; PrepareAns(r, a, res) in s.net && MsgOk(s, PrepareAns(r, a, res))
    ensures var run := s.runs[r];
            PrepOk(s, r, run.(prep := PrepareOne(run.prep, run.nodes[run.k], res), k := run.k + 1))
  {
    var run := s.runs[r];
    var a := run.nodes[run.k];
    if res.Promised? {
      var max := PrepareOne(run.prep, a, res).max;
      GtTotalOrder(res.nA, run.prep.max, max);
      GtTotalOrder(run.prep.max, res.nA, max);
      assert Ge(max, res.nA);
      assert ReportAtMost(s, r, a, max);
      forall b | b in run.prep.accepts
        ensures ReportAtMost(s, r, b, max)
      {
        assert ReportAtMost(s, r, b, run.prep.max);
        var nA: Prop, vA: string :| PrepareAns(r, b, Promised(nA, vA)) in s.net && Ge(run.prep.max, nA);
        GtTotalOrder(max, run.prep.max, nA);
        GtTotalOrder(run.prep.max, nA, max);
        GtTotalOrder(max, nA, max);
        assert Ge(max, nA);
      }
    }
  }

  lemma EndPrepareKept(s: State, r: nat)
    requires Inv(s) && InPhase(s, r, Preparing)
    ensures Inv(DoEndPrepare(s, r))
  {
    var run := s.runs[r];
    if Majority(run.nodes, run.prep.accepts) {
      var run' := run.(phase := Accepting, k := 0, v := if run.prep.v == "" then run.newV else run.prep.v);
      assert RunOk(s, r);
      ExtendsByRun(s, r, run');
      FactsKept(s, WithRun(s, r, run'));
      assert RunOk(WithRun(s, r, run'), r);
      RunUpdateKept(s, r, run');
    } else {
      StopKept(s, r);
    }
  }

  lemma RecvAcceptKept(s: State, r: nat, res: AcceptRes)
    requires Inv(s) && InPhase(s, r, Accepting) && s.runs[r].k < |s.runs[r].prep.accepts|
    requires AcceptAns(r, s.runs[r].prep.accepts[s.runs[r].k], res) in s.net
    ensures Inv(DoRecvAccept(s, r, res))
  {
    var t := DoRecvAccept(s, r, res);
    var run' := t.runs[r];
    assert RunOk(s, r);
    ExtendsByRun(s, r, run');
    FactsKept(s, t);
    assert RunOk(t, r);
    RunUpdateKept(s, r, run');
  }

  lemma EndAcceptKept(s: State, r: nat)
    requires Inv(s) && InPhase(s, r, Accepting)
    ensures Inv(DoEndAccept(s, r))
  {
    var run := s.runs[r];
    if Majority(run.nodes, run.voters) {
      var run' := run.(phase := Deciding, k := 0);
      assert RunOk(s, r);
      ExtendsByRun(s, r, run');
      FactsKept(s, WithRun(s, r, run'));
      assert RunOk(WithRun(s, r, run'), r);
      RunUpdateKept(s, r, run');
    } else {
      StopKept(s, r);
    }
  }

  lemma SendPrepareKept(s: State, r: nat)
    requires Inv(s) && r in s.runs && s.runs[r].k < |s.runs[r].nodes|
    ensures Inv(WithMsg(s, PrepareReq(r, s.runs[r].nodes[s.runs[r].k])))
  {
    RequestKept(s, PrepareReq(r, s.runs[r].nodes[s.runs[r].k]));
  }

  lemma SendAcceptKept(s: State, r: nat)
    requires Inv(s) && InPhase(s, r, Accepting) && s.runs[r].k < |s.runs[r].prep.accepts|
    ensures Inv(WithMsg(s, AcceptReq(r, s.runs[r].prep.accepts[s.runs[r].k])))
  {
    var a := s.runs[r].prep.accepts[s.runs[r].k];
    var m := AcceptReq(r, a);
    assert RunOk(s, r) && ReportAtMost(s, r, a, s.runs[r].prep.max);
    assert HasPromised(s, r, a);
    ExtendsByMsg(s, m);
    FactsKept(s, WithMsg(s, m));
    assert MsgOk(WithMsg(s, m), m);
    RequestKept(s, m);
  }

  lemma SendDecideKept(s: State, r: nat)
    requires Inv(s) && InPhase(s, r, Deciding) && s.runs[r].k < |s.runs[r].voters|
    ensures Inv(Moved(WithMsg(s, DecideReq(r, s.runs[r].voters[s.runs[r].k])), r))
  {
    var m := DecideReq(r, s.runs[r].voters[s.runs[r].k]);
    assert MsgOk(WithMsg(s, m), m);
    RequestKept(s, m);
    MovedKept(WithMsg(s, m), r);
  }

  // ---- acceptor steps ----

  /** Committing a decided value at the next instance, or ignoring one already known. */
  lemma CommitKept(s: State, a: string, j: nat, v: string)
    requires Inv(s) && a in s.acc && Decided(s, j, v) && v != "" && 1 <= j <= s.acc[a].instanceH + 1
    ensures Inv(WithAcc(s, a, Commit(s.acc[a], j, v))) && AccAdvances(s.acc[a], Commit(s.acc[a], j, v))
  {
    var u := Commit(s.acc[a], j, v);
    assert AccOk(s, a);
    assert AccAdvances(s.acc[a], u);
    ExtendsByAcc(s, a, u);
    FactsKept(s, WithAcc(s, a, u));
    assert AccOk(WithAcc(s, a, u), a);
    AccUpdateKept(s, a, u);
  }

  /** Requests reach only nodes that know a view. */
  lemma AskedNodesHaveViews(s: State, r: nat, a: string)
    requires Inv(s) && r in s.runs && a in s.runs[r].nodes
    ensures s.runs[r].instance > 1
  {
    assert RunOk(s, r) && AccOk(s, s.runs[r].node);
  }

  lemma PromiseUpdateKept(s: State, r: nat, a: string)
    requires Inv(s) && PrepareReq(r, a) in s.net && a in s.acc && r in s.runs
    requires s.runs[r].instance == s.acc[a].instanceH + 1 && Gt(s.runs[r].n, s.acc[a].nH)
    ensures Inv(WithAcc(s, a, Prepare(s.acc[a], s.runs[r].instance, s.runs[r].n).0))
    ensures AccAdvances(s.acc[a], Prepare(s.acc[a], s.runs[r].instance, s.runs[r].n).0)
  {
    var u := Prepare(s.acc[a], s.runs[r].instance, s.runs[r].n).0;
    assert MsgOk(s, PrepareReq(r, a)) && RunOk(s, r) && AccOk(s, a);
    AskedNodesHaveViews(s, r, a);
    forall n: Prop
      ensures Ge(s.acc[a].nH, n) ==> Ge(u.nH, n)
    {
      GtTotalOrder(u.nH, s.acc[a].nH, n);
      GtTotalOrder(s.acc[a].nH, n, n);
      GtTotalOrder(u.nH, n, n);
    }
    assert AccAdvances(s.acc[a], u);
    ExtendsByAcc(s, a, u);
    FactsKept(s, WithAcc(s, a, u));
    assert AccOk(WithAcc(s, a, u), a);
    AccUpdateKept(s, a, u);
  }

  /** After a raised its promise to r's number, the answer that reports its accepted proposal is in order. */
  lemma PromiseAddedKept(s: State, r: nat, a: string, nA: Prop, vA: string)
    requires Inv(s) && r in s.runs && a in s.runs[r].nodes
    requires PromiseOk(s, r, a, nA, vA)
    requires forall q :: q in s.runs && HasPromised(s, q, a) && s.runs[q].instance == s.runs[r].instance
                         ==> s.runs[q].n != s.runs[r].n
    ensures Inv(WithMsg(s, PrepareAns(r, a, Promised(nA, vA))))
  {
    var m := PrepareAns(r, a, Promised(nA, vA));
    var t := WithMsg(s, m);
    ExtendsByMsg(s, m);
    FactsKept(s, t);
    assert MsgOk(t, m);
    OldPromisesOnly(s, r, a, nA, vA);
    forall x | x in t.net
      ensures MsgOk(t, x)
    {
      if x != m {
        MsgKept(s, t, x);
      }
    }
    forall x | x in t.acc
      ensures AccOk(t, x)
    {
      AccKept(s, t, x);
    }
    forall q | q in t.runs
      ensures RunOk(t, q)
    {
      assert RunOk(s, q);
      RunKept(s, t, q);
    }
  }

  lemma OldPromisesOnly(s: State, r: nat, a: string, nA: Prop, vA: string)
    requires PromisesUnique(s) && r in s.runs
    requires forall q :: q in s.runs && HasPromised(s, q, a) && s.runs[q].instance == s.runs[r].instance
                         ==> s.runs[q].n != s.runs[r].n
    ensures PromisesUnique(WithMsg(s, PrepareAns(r, a, Promised(nA, vA))))
  {
    var t := WithMsg(s, PrepareAns(r, a, Promised(nA, vA)));
    forall q, b | HasPromised(t, q, b) && !(q == r && b == a)
      ensures HasPromised(s, q, b)
    {
      var n1: Prop, v1: string :| PrepareAns(q, b, Promised(n1, v1)) in t.net;
      assert PrepareAns(q, b, Promised(n1, v1)) in s.net;
    }
  }

  lemma HandlePrepareKept(s: State, r: nat, a: string)
    requires Inv(s) && PrepareReq(r, a) in s.net && a in s.acc && r in s.runs
    requires s.runs[r].instance <= s.acc[a].instanceH + 1
    ensures Inv(DoHandlePrepare(s, r, a))
    ensures AccAdvances(s.acc[a], Prepare(s.acc[a], s.runs[r].instance, s.runs[r].n).0)
  {
    var run := s.runs[r];
    var (u, res) := Prepare(s.acc[a], run.instance, run.n);
    assert MsgOk(s, PrepareReq(r, a)) && RunOk(s, r) && AccOk(s, a);
    if res.Promised? {
      PromiseUpdateKept(s, r, a);
      PromiseReport(s, r, a);
      PromiseAddedKept(WithAcc(s, a, u), r, a, res.nA, res.vA);
    } else {
      assert WithAcc(s, a, u) == s;
      var m := PrepareAns(r, a, res);
      ExtendsByMsg(s, m);
      FactsKept(s, WithMsg(s, m));
      assert MsgOk(WithMsg(s, m), m);
      RequestKept(s, m);
    }
  }

  /** The report an acceptor gives covers everything it accepted for the instance. */
  lemma PromiseReport(s: State, r: nat, a: string)
    requires Inv(s) && PrepareReq(r, a) in s.net && a in s.acc && r in s.runs
    requires s.runs[r].instance == s.acc[a].instanceH + 1 && Gt(s.runs[r].n, s.acc[a].nH)
    ensures var t := WithAcc(s, a, Prepare(s.acc[a], s.runs[r].instance, s.runs[r].n).0);
            && PromiseOk(t, r, a, s.acc[a].nA, s.acc[a].vA)
            && forall q :: q in t.runs && HasPromised(t, q, a) && t.runs[q].instance == t.runs[r].instance
                           ==> t.runs[q].n != t.runs[r].n
  {
    var acc := s.acc[a];
    var run := s.runs[r];
    var t := WithAcc(s, a, Prepare(acc, run.instance, run.n).0);
    assert AccOk(s, a) && RunOk(s, r);
    GtTotalOrder(run.n, acc.nH, acc.nA);
    GtTotalOrder(acc.nH, acc.nA, acc.nA);
    GtTotalOrder(run.n, run.n, run.n);
    if acc.nA.n > 0 {
      var q :| q in s.runs && ProposedBy(s.runs[q], acc.instanceH + 1, acc.nA, acc.vA);
      assert q in t.runs && ProposedBy(t.runs[q], acc.instanceH + 1, acc.nA, acc.vA);
    }
    forall q | q in s.runs && Voted(t, q, a) && s.runs[q].instance == run.instance
      ensures Ge(acc.nA, s.runs[q].n)
    {
      assert MsgOk(s, AcceptAns(q, a, Ok(true)));
    }
    forall q | q in s.runs && HasPromised(t, q, a) && s.runs[q].instance == run.instance
      ensures s.runs[q].n != run.n
    {
      var n1: Prop, v1: string :| PrepareAns(q, a, Promised(n1, v1)) in t.net;
      assert MsgOk(s, PrepareAns(q, a, Promised(n1, v1)));
      GtTotalOrder(run.n, acc.nH, run.n);
      GtTotalOrder(acc.nH, run.n, run.n);
    }
  }
}
