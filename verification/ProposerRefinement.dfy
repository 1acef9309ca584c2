/** Every run of the Paxos system that decides is an execution of the proposer object. */
module ProposerRefinement {
  import opened PropNumbers
  import opened AcceptorSpec
  import opened ProposerObject
  import opened ProposerSpec
  import opened PaxosSystem
  import opened Wrappers

  /** The answers are on the network, each from the node asked at its position. */
  ghost predicate PresFrom(s: State, r: nat, nodes: seq<string>, pres: seq<Option<PrepareRes>>) {
    |pres| <= |nodes|
    && forall i :: 0 <= i < |pres| && pres[i].Some? ==> PrepareAns(r, nodes[i], pres[i].value) in s.net
  }

  ghost predicate AresFrom(s: State, r: nat, nodes: seq<string>, ares: seq<Option<AcceptRes>>) {
    forall i :: 0 <= i < |ares| && i < |nodes| && ares[i].Some? ==> AcceptAns(r, nodes[i], ares[i].value) in s.net
  }

  /** The locals of the prepare loop after these answers; none of them ended it. */
  predicate PreparedBy(run: Run, pres: seq<Option<PrepareRes>>) {
    |pres| <= |run.nodes| && Prepared(run.nodes, pres, |pres|) == (run.prep, None)
  }

  /** The prepare loop is over, a majority promised, and these answers to the accept requests are in. */
  predicate VotedBy(run: Run, pres: seq<Option<PrepareRes>>, ares: seq<Option<AcceptRes>>) {
    && |pres| == |run.nodes| && Majority(run.nodes, run.prep.accepts) && run.v == Proposal(run.prep, run.newV)
    && |ares| <= |run.prep.accepts| && run.voters == Voters(run.prep.accepts, ares, |ares|)
  }

  /** Run r is where the proposer object would be after the same answers. */
  ghost predicate Explains(s: State, r: nat, pres: seq<Option<PrepareRes>>, ares: seq<Option<AcceptRes>>)
    requires r in s.runs
  {
    var run := s.runs[r];
    && PresFrom(s, r, run.nodes, pres) && AresFrom(s, r, run.prep.accepts, ares) && PreparedBy(run, pres)
    && match run.phase
       case Preparing => run.k == |pres| && ares == [] && run.voters == []
       case Accepting => VotedBy(run, pres, ares) && run.k == |ares|
       case Deciding => VotedBy(run, pres, ares) && |ares| == |run.prep.accepts| && Majority(run.nodes, run.voters)
  }

  ghost predicate Explained(s: State, r: nat)
    requires r in s.runs
  {
    exists pres, ares :: Explains(s, r, pres, ares)
  }

  ghost predicate AllExplained(s: State) {
    forall r {:trigger Explained(s, r)} :: r in s.runs ==> Explained(s, r)
  }

  /** One more answer, taken at the end of the list. */
  lemma {:induction false} PreparedPrefix(nodes: seq<string>, pres: seq<Option<PrepareRes>>, a: Option<PrepareRes>,
        k: nat)
    requires k <= |pres| && k <= |nodes|
    ensures Prepared(nodes, pres + [a], k) == Prepared(nodes, pres, k)
  {
    if k > 0 {
      PreparedPrefix(nodes, pres, a, k - 1);
    }
  }

  lemma {:induction false} VotersPrefix(nodes: seq<string>, ares: seq<Option<AcceptRes>>, more: seq<Option<AcceptRes>>,
        k: nat)
    requires k <= |ares| && k <= |nodes|
    ensures Voters(nodes, ares + more, k) == Voters(nodes, ares, k)
  {
    if k > 0 {
      VotersPrefix(nodes, ares, more, k - 1);
    }
  }

  /** A run that only stopped, or only moved among its decide requests, keeps its explanation. */
  lemma SameRunExplained(s: State, t: State, r: nat)
    requires r in s.runs && r in t.runs && Explained(s, r) && s.net <= t.net
    requires t.runs[r] == s.runs[r].(live := t.runs[r].live, k := t.runs[r].k)
    requires t.runs[r].k == s.runs[r].k || s.runs[r].phase == Deciding
    ensures Explained(t, r)
  {
    var pres, ares :| Explains(s, r, pres, ares);
    assert Explains(t, r, pres, ares);
  }

  lemma PrepareAnswerExplained(s: State, r: nat, a: Option<PrepareRes>)
    requires InPhase(s, r, Preparing) && s.runs[r].k < |s.runs[r].nodes| && Explained(s, r)
    requires a.Some? ==> !a.value.OldInstance? && PrepareAns(r, s.runs[r].nodes[s.runs[r].k], a.value) in s.net
    ensures Explained(if a.Some? then DoRecvPrepare(s, r, a.value) else Moved(s, r), r)
  {
    var run := s.runs[r];
    var pres, ares :| Explains(s, r, pres, ares);
    var t := if a.Some? then DoRecvPrepare(s, r, a.value) else Moved(s, r);
    PreparedPrefix(run.nodes, pres, a, |pres|);
    assert (pres + [a])[|pres|] == a;
    assert PreparedBy(t.runs[r], pres + [a]);
    assert Explains(t, r, pres + [a], []);
  }

  lemma AcceptAnswerExplained(s: State, r: nat, a: Option<AcceptRes>)
    requires InPhase(s, r, Accepting) && s.runs[r].k < |s.runs[r].prep.accepts| && Explained(s, r)
    requires a.Some? ==> AcceptAns(r, s.runs[r].prep.accepts[s.runs[r].k], a.value) in s.net
    ensures Explained(if a.Some? then DoRecvAccept(s, r, a.value) else Moved(s, r), r)
  {
    var run := s.runs[r];
    var pres, ares :| Explains(s, r, pres, ares);
    var t := if a.Some? then DoRecvAccept(s, r, a.value) else Moved(s, r);
    VotersPrefix(run.prep.accepts, ares, [a], |ares|);
    assert (ares + [a])[|ares|] == a;
    assert VotedBy(t.runs[r], pres, ares + [a]);
    assert Explains(t, r, pres, ares + [a]);
  }

  lemma PhaseEndExplained(s: State, r: nat)
    requires r in s.runs && Explained(s, r)
    ensures InPhase(s, r, Preparing) && s.runs[r].k == |s.runs[r].nodes| ==> Explained(DoEndPrepare(s, r), r)
    ensures InPhase(s, r, Accepting) && s.runs[r].k == |s.runs[r].prep.accepts| ==> Explained(DoEndAccept(s, r), r)
  {
    var pres, ares :| Explains(s, r, pres, ares);
    if InPhase(s, r, Preparing) && s.runs[r].k == |s.runs[r].nodes| {
      assert Explains(DoEndPrepare(s, r), r, pres, ares);
    }
    if InPhase(s, r, Accepting) && s.runs[r].k == |s.runs[r].prep.accepts| {
      assert Explains(DoEndAccept(s, r), r, pres, ares);
    }
  }

  lemma StartExplained(s: State, r: nat)
    requires r in s.runs && s.runs[r].phase == Preparing && s.runs[r].k == 0
    requires s.runs[r].prep == EmptyPrep() && s.runs[r].voters == []
    ensures Explained(s, r)
  {
    assert Explains(s, r, [], []);
  }

  /** The steps that change what run r has heard or where it stands. */
  predicate Touches(st: Step, r: nat) {
    match st
    case Start(_, q, _, _) => q == r
    case RecvPrepare(q, _) => q == r
    case SkipPrepare(q) => q == r
    case EndPrepare(q) => q == r
    case RecvAccept(q, _) => q == r
    case SkipAccept(q) => q == r
    case EndAccept(q) => q == r
    case _ => false
  }

  /** The run a step is about keeps its explanation. */
  lemma ActiveExplained(s: State, st: Step, r: nat)
    requires AllExplained(s) && Enabled(s, st) && r in Apply(s, st).runs && Touches(st, r)
    ensures Explained(Apply(s, st), r)
  {
    assert !st.Start? ==> Explained(s, r);
    match st {
      case Start(_, _, _, _) => StartExplained(Apply(s, st), r);
      case RecvPrepare(_, res) =>
        if res.OldInstance? {
          SameRunExplained(s, Apply(s, st), r);
        } else {
          PrepareAnswerExplained(s, r, Some(res));
        }
      case SkipPrepare(_) => PrepareAnswerExplained(s, r, None);
      case EndPrepare(_) => PhaseEndExplained(s, r);
      case RecvAccept(_, res) => AcceptAnswerExplained(s, r, Some(res));
      case SkipAccept(_) => AcceptAnswerExplained(s, r, None);
      case EndAccept(_) => PhaseEndExplained(s, r);
    }
  }

  lemma OthersUntouched(s: State, st: Step, r: nat)
    requires Enabled(s, st) && !Touches(st, r) && r in Apply(s, st).runs
    ensures s.net <= Apply(s, st).net && r in s.runs
    ensures var run, sun := s.runs[r], Apply(s, st).runs[r];
            sun == run.(live := sun.live, k := sun.k) && (sun.k == run.k || run.phase == Deciding)
  {
  }

  lemma StepExplained(s: State, st: Step)
    requires AllExplained(s) && Enabled(s, st)
    ensures AllExplained(Apply(s, st))
  {
    forall r | r in Apply(s, st).runs
      ensures Explained(Apply(s, st), r)
    {
      if Touches(st, r) {
        ActiveExplained(s, st, r);
      } else {
        OthersUntouched(s, st, r);
        assert Explained(s, r);
        SameRunExplained(s, Apply(s, st), r);
      }
    }
  }

  lemma {:induction false} RunsExplained(s: State, steps: seq<Step>, t: State)
    requires AllExplained(s) && Runs(s, steps, t)
    ensures AllExplained(t)
    decreases |steps|
  {
    if |steps| > 0 {
      StepExplained(s, steps[0]);
      RunsExplained(Apply(s, steps[0]), steps[1..], t);
    }
  }

  /** Run r did what the proposer object does with these answers, which are on the network: same value, same voters. */
  ghost predicate IsExecution(s: State, r: nat, pres: seq<Option<PrepareRes>>, ares: seq<Option<AcceptRes>>)
    requires r in s.runs
  {
    var run := s.runs[r];
    && |pres| == |run.nodes| == |ares| && PresFrom(s, r, run.nodes, pres) && AresFrom(s, r, run.prep.accepts, ares)
    && RunOutcome(run.nodes, run.newV, pres, ares) == Decided(run.v, run.voters)
  }

  /** Refinement: whatever happens in between, a run that came to decide is an execution of the proposer object. */
  lemma DecidingRunsAreExecutions(s0: State, steps: seq<Step>, s: State, r: nat)
    requires Init(s0) && Runs(s0, steps, s) && r in s.runs && s.runs[r].phase == Deciding
    ensures exists pres, ares :: IsExecution(s, r, pres, ares)
  {
    RunsExplained(s0, steps, s);
    assert Explained(s, r);
    var run := s.runs[r];
    var pres, ares :| Explains(s, r, pres, ares);
    AcceptsFit(run.nodes, pres, |pres|);
    var pad: seq<Option<AcceptRes>> := seq(|run.nodes| - |ares|, _ => None);
    VotersPrefix(run.prep.accepts, ares, pad, |ares|);
    assert IsExecution(s, r, pres, ares + pad);
  }

  // ---- the other ends of a run ----

  lemma {:induction false} PreparedOfPrefix(nodes: seq<string>, pres: seq<Option<PrepareRes>>,
        more: seq<Option<PrepareRes>>, k: nat)
    requires k <= |pres| && k <= |nodes|
    ensures Prepared(nodes, pres + more, k) == Prepared(nodes, pres, k)
  {
    if k > 0 {
      PreparedOfPrefix(nodes, pres, more, k - 1);
    }
  }

  /** An old-instance reply leaves the system where it leaves the object: the node has committed the reply's value, the
      run has returned, the proposer is stable, and the object's outcome is that value, whatever the later nodes would
      answer. */
  lemma OldReplyEndsTheRun(s: State, r: nat, w: string, pres: seq<Option<PrepareRes>>, more: seq<Option<PrepareRes>>,
        ares: seq<Option<AcceptRes>>)
    requires InPhase(s, r, Preparing) && s.runs[r].k < |s.runs[r].nodes| && Explains(s, r, pres, [])
    requires |pres| + 1 + |more| == |s.runs[r].nodes| == |ares|
    ensures var run := s.runs[r];
            var t := DoRecvPrepare(s, r, OldInstance(w));
            && t.acc == s.acc[run.node := Commit(s.acc[run.node], run.instance, w)]
            && !t.runs[r].live && t.prop[run.node].stable && t.net == s.net
            && RunOutcome(run.nodes, run.newV, pres + [Some(OldInstance(w))] + more, ares) == OldValue(w)
  {
    var run := s.runs[r];
    var all := pres + [Some(OldInstance(w))] + more;
    assert all == pres + ([Some(OldInstance(w))] + more) && all[|pres|] == Some(OldInstance(w));
    PreparedOfPrefix(run.nodes, pres, [Some(OldInstance(w))] + more, |pres|);
    PreparedKeepsOld(run.nodes, all, |pres| + 1, |run.nodes|);
  }

  /** Without a majority of promises, or of votes, the run returns, changes nothing at any acceptor, and the proposer is
      stable; the object ends in the same way. */
  lemma NoMajorityEndsTheRun(s: State, r: nat, pres: seq<Option<PrepareRes>>, ares: seq<Option<AcceptRes>>)
    requires r in s.runs && Explains(s, r, pres, ares) && |pres| == |s.runs[r].nodes|
    ensures var run := s.runs[r];
            InPhase(s, r, Preparing) && !Majority(run.nodes, run.prep.accepts) ==>
              var t := DoEndPrepare(s, r);
              && t.acc == s.acc && !t.runs[r].live && t.prop[run.node].stable
              && forall more: seq<Option<AcceptRes>> :: |more| == |run.nodes| ==>
                   RunOutcome(run.nodes, run.newV, pres, more) == NoPrepareMajority
    ensures var run := s.runs[r];
            InPhase(s, r, Accepting) && !Majority(run.nodes, run.voters) ==>
              var t := DoEndAccept(s, r);
              t.acc == s.acc && !t.runs[r].live && t.prop[run.node].stable
    ensures var run := s.runs[r];
            InPhase(s, r, Accepting) && !Majority(run.nodes, run.voters) && |ares| == |run.prep.accepts| ==>
              forall more: seq<Option<AcceptRes>> :: |ares + more| == |run.nodes| ==>
                RunOutcome(run.nodes, run.newV, pres, ares + more) == NoAcceptMajority
  {
    forall more: seq<Option<AcceptRes>> | |ares| <= |s.runs[r].prep.accepts|
      ensures Voters(s.runs[r].prep.accepts, ares + more, |ares|) == Voters(s.runs[r].prep.accepts, ares, |ares|)
    {
      VotersPrefix(s.runs[r].prep.accepts, ares, more, |ares|);
    }
  }
}
