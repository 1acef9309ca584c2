/** Why the delay hypothesis is needed: an acceptor keeps one promise and one vote for all undecided instances, so a
    request that overtakes a decision is forgotten when that decision arrives. */
module PaxosLag {
  import opened PropNumbers
  import opened AcceptorSpec
  import opened ProposerSpec
  import opened Views
  import opened PaxosSystem

  /** A promise for instance j outlives every commit that leaves j open exactly when the request met the hypothesis:
      the acceptor had decided instance j - 1. */
  lemma PromiseSurvivesExactlyWithoutLag(s: AccState, j: nat, n: Prop)
    requires Prepare(s, j, n).1.Promised? && n.n > 0
    ensures (forall i: nat, v: string ::
               Commit(Prepare(s, j, n).0, i, v).instanceH < j ==> Ge(Commit(Prepare(s, j, n).0, i, v).nH, n))
              <==> j <= s.instanceH + 1
  {
    var t := Prepare(s, j, n).0;
    GtTotalOrder(n, n, n);
    if j > s.instanceH + 1 {
      assert Commit(t, s.instanceH + 1, "").instanceH < j;
    }
  }

  /** The same for a vote: it is still reported for instance j after every such commit exactly when nothing lagged. */
  lemma VoteSurvivesExactlyWithoutLag(s: AccState, j: nat, n: Prop, v: string)
    requires Accept(s, j, n, v).1 == Ok(true) && n.n > 0
    ensures (forall i: nat, w: string ::
               Commit(Accept(s, j, n, v).0, i, w).instanceH < j ==>
                 Commit(Accept(s, j, n, v).0, i, w).nA == n && Commit(Accept(s, j, n, v).0, i, w).vA == v)
              <==> j <= s.instanceH + 1
  {
    var t := Accept(s, j, n, v).0;
    if j > s.instanceH + 1 {
      assert Commit(t, s.instanceH + 1, "").instanceH < j;
    }
  }

  /** A promise for instance i reports what was accepted for instance j. Both instances are the same exactly when the
      prepare request met the hypothesis; otherwise the run adopts a proposal of an earlier instance. */
  lemma ReportIsOfTheInstanceExactlyWithoutLag(s: AccState, j: nat, n: Prop, v: string, i: nat, m: Prop)
    requires j <= s.instanceH + 1 && Accept(s, j, n, v).1 == Ok(true)
    requires Prepare(Accept(s, j, n, v).0, i, m).1.Promised?
    ensures Prepare(Accept(s, j, n, v).0, i, m).1 == Promised(n, v)
    ensures i == j <==> i <= s.instanceH + 1
  {
  }

  /** The acceptor has a value for exactly the instances up to the highest one decided. */
  ghost predicate Gapless(s: AccState) {
    forall i: nat {:trigger ValueOf(s.values, i)} :: i >= 1 ==> (ValueOf(s.values, i) != "" <==> i <= s.instanceH)
  }

  /** A decision leaves no view out exactly when it met the hypothesis. Otherwise prepare requests for the first view
      left out are answered with an empty old value. */
  lemma DecideLeavesNoGapExactlyWithoutLag(s: AccState, j: nat, v: string, n: Prop)
    requires Gapless(s) && v != "" && j >= 1
    ensures Gapless(Commit(s, j, v)) <==> j <= s.instanceH + 1
    ensures j > s.instanceH + 1 ==> Prepare(Commit(s, j, v), s.instanceH + 1, n).1 == OldInstance("")
  {
    var t := Commit(s, j, v);
    if j > s.instanceH + 1 {
      assert ValueOf(s.values, s.instanceH + 1) == "" && ValueOf(t.values, s.instanceH + 1) == "";
    } else {
      forall i: nat | i >= 1
        ensures ValueOf(t.values, i) != "" <==> i <= t.instanceH
      {
        assert ValueOf(s.values, i) != "" <==> i <= s.instanceH;
      }
    }
  }

  // ---- a run that splits the views ----

  /** Proposers are started by `add` and `remove_wo`: for the next instance, with one member more or without one. */
  ghost predicate FromConfig(s: State, st: Step)
    requires Enabled(s, st)
  {
    st.Start? ==>
      var view := Members(ValueOf(s.acc[st.p].values, s.acc[st.p].instanceH));
      && st.instance == s.acc[st.p].instanceH + 1
      && ((exists m :: st.newV == Value(view + [m])) || (exists m :: st.newV == Value(Without(view, m))))
  }

  /** A run of the system, as config drives it, without the hypothesis. */
  ghost predicate RunsFreely(s: State, steps: seq<Step>, t: State)
    decreases |steps|
  {
    if |steps| == 0 then s == t
    else Enabled(s, steps[0]) && FromConfig(s, steps[0]) && RunsFreely(Apply(s, steps[0]), steps[1..], t)
  }

  ghost predicate Reaches(s: State, t: State) {
    exists steps :: RunsFreely(s, steps, t)
  }

  lemma {:induction false} RunsJoin(s: State, xs: seq<Step>, t: State, ys: seq<Step>, u: State)
    requires RunsFreely(s, xs, t) && RunsFreely(t, ys, u)
    ensures RunsFreely(s, xs + ys, u)
    decreases |xs|
  {
    hide Apply, Enabled, FromConfig;
    if |xs| == 0 {
      assert xs + ys == ys;
    } else {
      RunsJoin(Apply(s, xs[0]), xs[1..], t, ys, u);
      assert (xs + ys)[1..] == xs[1..] + ys;
    }
  }

  lemma Then(s: State, t: State, u: State)
    requires Reaches(s, t) && Reaches(t, u)
    ensures Reaches(s, u)
  {
    var xs :| RunsFreely(s, xs, t);
    var ys :| RunsFreely(t, ys, u);
    RunsJoin(s, xs, t, ys, u);
  }

  lemma One(s: State, st: Step)
    requires Enabled(s, st) && FromConfig(s, st)
    ensures Reaches(s, Apply(s, st))
  {
    assert [st][1..] == [];
    assert RunsFreely(s, [st], Apply(s, st));
  }

  /** From s to t only run r and the acceptors' states change, and no message is lost. */
  ghost predicate OnlyRun(s: State, r: nat, t: State) {
    && Reaches(s, t) && t.first == s.first && t.prop == s.prop && s.net <= t.net
    && r in s.runs && r in t.runs && t.runs == s.runs[r := t.runs[r]]
  }

  lemma OnlyRunThen(s: State, r: nat, t: State, u: State)
    requires OnlyRun(s, r, t) && OnlyRun(t, r, u)
    ensures OnlyRun(s, r, u)
  {
    hide Reaches;
    Then(s, t, u);
  }

  /** The node at the loop's position is asked to prepare and promises. */
  lemma Ask(s: State, r: nat) returns (t: State)
    requires InPhase(s, r, Preparing) && s.runs[r].k < |s.runs[r].nodes| && s.runs[r].nodes[s.runs[r].k] in s.acc
    requires var run := s.runs[r];
             var b := s.acc[run.nodes[run.k]];
             run.instance > b.instanceH && Gt(run.n, b.nH)
    ensures var run := s.runs[r];
            var a := run.nodes[run.k];
            var b := s.acc[a];
            && OnlyRun(s, r, t) && t.acc == s.acc[a := Prepare(b, run.instance, run.n).0]
            && t.runs[r] == run.(k := run.k + 1, prep := PrepareOne(run.prep, a, Promised(b.nA, b.vA)))
            && PrepareAns(r, a, Promised(b.nA, b.vA)) in t.net
  {
    hide RunsFreely, Reaches;
    var a := s.runs[r].nodes[s.runs[r].k];
    var res := Prepare(s.acc[a], s.runs[r].instance, s.runs[r].n).1;
    var u := Apply(s, SendPrepare(r));
    One(s, SendPrepare(r));
    var w := Apply(u, HandlePrepare(r, a));
    One(u, HandlePrepare(r, a));
    t := Apply(w, RecvPrepare(r, res));
    One(w, RecvPrepare(r, res));
    Then(s, u, w);
    Then(s, w, t);
  }

  lemma Pass(s: State, r: nat) returns (t: State)
    requires InPhase(s, r, Preparing) && s.runs[r].k < |s.runs[r].nodes|
    ensures OnlyRun(s, r, t) && t == Moved(s, r)
  {
    t := Apply(s, SkipPrepare(r));
    One(s, SkipPrepare(r));
  }

  /** The promiser at the loop's position votes. */
  lemma Vote(s: State, r: nat) returns (t: State)
    requires InPhase(s, r, Accepting) && s.runs[r].k < |s.runs[r].prep.accepts|
    requires s.runs[r].prep.accepts[s.runs[r].k] in s.acc
    requires var run := s.runs[r];
             var b := s.acc[run.prep.accepts[run.k]];
             run.instance > b.instanceH && b.nH == run.n
    ensures var run := s.runs[r];
            var a := run.prep.accepts[run.k];
            && OnlyRun(s, r, t) && t.acc == s.acc[a := Accept(s.acc[a], run.instance, run.n, run.v).0]
            && t.runs[r] == run.(k := run.k + 1, voters := run.voters + [a]) && AcceptAns(r, a, Ok(true)) in t.net
  {
    hide RunsFreely, Reaches;
    var a := s.runs[r].prep.accepts[s.runs[r].k];
    GtTotalOrder(s.runs[r].n, s.runs[r].n, s.runs[r].n);
    var u := Apply(s, SendAccept(r));
    One(s, SendAccept(r));
    var w := Apply(u, HandleAccept(r, a));
    One(u, HandleAccept(r, a));
    t := Apply(w, RecvAccept(r, Ok(true)));
    One(w, RecvAccept(r, Ok(true)));
    Then(s, u, w);
    Then(s, w, t);
  }

  function Choice(run: Run): string {
    if run.prep.v == "" then run.newV else run.prep.v
  }

  lemma Propose(s: State, r: nat) returns (t: State)
    requires InPhase(s, r, Preparing) && s.runs[r].k == |s.runs[r].nodes|
    requires Majority(s.runs[r].nodes, s.runs[r].prep.accepts)
    ensures OnlyRun(s, r, t) && t.acc == s.acc
    ensures t.runs[r] == s.runs[r].(phase := Accepting, k := 0, v := Choice(s.runs[r]))
  {
    t := Apply(s, EndPrepare(r));
    One(s, EndPrepare(r));
  }

  /** After a majority of votes the first voter gets the decide request. */
  lemma Conclude(s: State, r: nat) returns (t: State)
    requires InPhase(s, r, Accepting) && s.runs[r].k == |s.runs[r].prep.accepts|
    requires Majority(s.runs[r].nodes, s.runs[r].voters) && s.runs[r].voters != [] && s.runs[r].voters[0] in s.acc
    ensures var run := s.runs[r];
            var a := run.voters[0];
            && OnlyRun(s, r, t) && t.acc == s.acc[a := Commit(s.acc[a], run.instance, run.v)]
            && t.runs[r] == run.(phase := Deciding, k := 1)
  {
    hide RunsFreely, Reaches;
    var a := s.runs[r].voters[0];
    var u := Apply(s, EndAccept(r));
    One(s, EndAccept(r));
    var w := Apply(u, SendDecide(r));
    One(u, SendDecide(r));
    t := Apply(w, HandleDecide(r, a));
    One(w, HandleDecide(r, a));
    Then(s, u, w);
    Then(s, w, t);
  }

  /** One more decide request is sent, but not delivered. */
  lemma SendOnly(s: State, r: nat) returns (t: State)
    requires InPhase(s, r, Deciding) && s.runs[r].k < |s.runs[r].voters|
    ensures var run := s.runs[r];
            && OnlyRun(s, r, t) && t.acc == s.acc && DecideReq(r, run.voters[run.k]) in t.net
            && t.runs[r] == run.(k := run.k + 1)
  {
    t := Apply(s, SendDecide(r));
    One(s, SendDecide(r));
  }

  lemma Begin(s: State, p: string, r: nat, j: nat, newV: string) returns (t: State)
    requires Enabled(s, Start(p, r, j, newV)) && FromConfig(s, Start(p, r, j, newV))
    ensures Reaches(s, t) && t.first == s.first && t.acc == s.acc && t.net == s.net
    ensures t.prop == s.prop[p := Proposer(false, NewRun(s, p, j, newV).n.n)]
    ensures t.runs == s.runs[r := NewRun(s, p, j, newV)]
  {
    t := Apply(s, Start(p, r, j, newV));
    One(s, Start(p, r, j, newV));
  }

  lemma Finish(s: State, r: nat) returns (t: State)
    requires InPhase(s, r, Deciding) && s.runs[r].k == |s.runs[r].voters|
    ensures Reaches(s, t) && t == Stop(s, r)
  {
    t := Apply(s, EndRun(r));
    One(s, EndRun(r));
  }

  /** Node p, which has no views, loads the log of q. */
  lemma Joined(s: State, p: string, q: string, i: nat, v: string) returns (t: State)
    requires p in s.acc && q in s.acc && s.acc[p].instanceH == 0 && Open(s.acc[q], i, v)
    ensures Reaches(s, t) && t.first == s.first && t.prop == s.prop && t.runs == s.runs && s.net <= t.net
    ensures p in t.acc && t.acc == s.acc[p := t.acc[p]] && Open(t.acc[p], i, v)
  {
    hide RunsFreely, Reaches;
    var u := Apply(s, Dump(q));
    One(s, Dump(q));
    t := Apply(u, Join(p, s.acc[q].log));
    One(u, Join(p, s.acc[q].log));
    Then(s, u, t);
  }

  /** Instance i is decided with v, and nothing is promised or accepted for the next one. */
  predicate Open(b: AccState, i: nat, v: string) {
    && b.instanceH == i && ValueOf(b.values, i) == v && b.nH.n == 0 && b.nA.n == 0 && b.vA == ""
    && b.log != [] && b.log[|b.log| - 1] == Done(i, v)
  }

  /** Two promisers p and q, together a majority, vote, and p learns the decision. */
  lemma Settle(s: State, r: nat, p: string, q: string) returns (t: State)
    requires InPhase(s, r, Preparing) && s.runs[r].k == |s.runs[r].nodes| && p != q && p in s.acc && q in s.acc
    requires var run := s.runs[r];
             && run.prep.accepts == [p, q] && run.voters == [] && Majority(run.nodes, [p, q])
             && run.instance > s.acc[p].instanceH && s.acc[p].nH == run.n
             && run.instance > s.acc[q].instanceH && s.acc[q].nH == run.n
    ensures var run := s.runs[r];
            && OnlyRun(s, r, t)
            && t.runs[r] == run.(phase := Deciding, k := 1, v := Choice(run), voters := [p, q])
            && p in t.acc && t.acc == s.acc[q := Accept(s.acc[q], run.instance, run.n, Choice(run)).0][p := t.acc[p]]
            && Open(t.acc[p], run.instance, Choice(run)) && AcceptAns(r, q, Ok(true)) in t.net
  {
    hide RunsFreely, Reaches;
    var u := Propose(s, r);
    var w := Vote(u, r);
    var x := Vote(w, r);
    assert x.runs[r].voters == [p, q];
    t := Conclude(x, r);
    OnlyRunThen(s, r, u, w);
    OnlyRunThen(s, r, w, x);
    OnlyRunThen(s, r, x, t);
  }

  const N1 := "1"
  const N2 := "2"
  const N3 := "3"

  /** Texts config writes: node 1's view with node 2 added, then with node 3 added, and the latter without node 1. */
  function Text12(): string { Value([N1, N2]) }
  function Text123(): string { Value([N1, N2, N3]) }
  function Text23(): string { Value([N2, N3]) }

  lemma ViewTexts()
    ensures Members(N1) == [N1] && Members(Text12()) == [N1, N2] && Members(Text123()) == [N1, N2, N3]
    ensures Text12() != "" && Text123() != "" && Text23() != ""
    ensures Text12() != Text123() && Text23() != Text123()
  {
    assert WordLen(N1) == 1 && N1[1..] == "" && N1[..1] == N1;
    MembersOfValue([N1, N2, N3]);
    MembersOfValue([N1, N2]);
    MembersOfValue([N2, N3]);
    assert |[N1, N2]| != |[N1, N2, N3]| && |[N2, N3]| != |[N1, N2, N3]|;
  }

  lemma SmallMajorities()
    ensures Majority([N1], [N1]) && Majority([N1, N2], [N1, N2])
    ensures Majority([N1, N2, N3], [N1, N2]) && Majority([N1, N2, N3], [N2, N3])
  {
    assert [N1, N2, N3][..2] == [N1, N2] && [N1, N2][..1] == [N1];
    assert Hits([N1], [N1]) == 1 && Hits([N1], [N1, N2]) == 1 && Hits([N1], [N2, N3]) == 0;
  }

  /** What config proposes in the example. */
  lemma ConfigTexts()
    ensures Text12() == Value([N1] + [N2]) && Text123() == Value([N1, N2] + [N3])
    ensures Text12() == Value(Without([N1, N2, N3], N3)) && Text23() == Value(Without([N1, N2, N3], N1))
  {
    hide Value, Without;
    assert [N1] + [N2] == [N1, N2] && [N1, N2] + [N3] == [N1, N2, N3] && [] + [N1] == [N1] && [] + [N2] == [N2];
    WithoutNone(N1);
    WithoutNone(N3);
    WithoutSnoc([], N1, N3);
    WithoutSnoc([N1], N2, N3);
    WithoutSnoc([N1, N2], N3, N3);
    WithoutSnoc([], N1, N1);
    WithoutSnoc([N1], N2, N1);
    WithoutSnoc([N1, N2], N3, N1);
    assert [N2] + [N3] == [N2, N3];
  }

  ghost predicate Three(s: State) {
    s.acc.Keys == {N1, N2, N3} && s.prop.Keys == {N1, N2, N3}
  }

  /** The system before any request: node 1 has the view of itself. */
  lemma Beginning() returns (s: State)
    ensures Init(s) && Three(s) && s.runs == map[] && forall p :: p in s.prop ==> s.prop[p] == Proposer(true, 0)
    ensures s.acc[N1] == Commit(Blank(N1), 1, N1) && s.acc[N2] == Blank(N2) && s.acc[N3] == Blank(N3)
  {
    var b1, b2, b3 := Construct(N1, true, N1, []), Construct(N2, false, N2, []), Construct(N3, false, N3, []);
    var p := Proposer(true, 0);
    s := State(N1, map[N1 := b1, N2 := b2, N3 := b3], map[N1 := p, N2 := p, N3 := p], map[], {});
    assert [] + [Done(1, N1)] == [Done(1, N1)];
  }

  /** Node 1 alone decides view 2, and its proposer is stable again. */
  lemma ViewTwo(s: State) returns (t: State)
    requires Three(s) && s.runs == map[] && s.acc[N1] == Commit(Blank(N1), 1, N1)
    requires forall p :: p in s.prop ==> s.prop[p] == Proposer(true, 0)
    ensures Reaches(s, t) && Three(t) && Open(t.acc[N1], 2, Text12())
    ensures t.acc[N2] == s.acc[N2] && t.acc[N3] == s.acc[N3]
    ensures t.prop[N1].stable && t.prop[N3].stable && t.runs.Keys == {0} && t.runs[0].instance == 2
  {
    hide Apply, RunsFreely, Reaches, Value, WordLen, Members, Hits, StrLess;
    ViewTexts();
    ConfigTexts();
    SmallMajorities();
    var x0 := Begin(s, N1, 0, 2, Text12());
    var x1 := Ask(x0, 0);
    assert [] + [N1] == [N1];
    var x2 := Propose(x1, 0);
    var x3 := Vote(x2, 0);
    var x4 := Conclude(x3, 0);
    t := Finish(x4, 0);
    Then(s, x0, x1);
    Then(s, x1, x2);
    Then(s, x2, x3);
    Then(s, x3, x4);
    Then(s, x4, t);
  }

  /** Node 2 joins as well; node 3 has heard nothing. */
  lemma Opening() returns (s: State, t: State)
    ensures Init(s) && Reaches(s, t) && Three(t) && Open(t.acc[N1], 2, Text12()) && Open(t.acc[N2], 2, Text12())
    ensures t.acc[N3] == Blank(N3) && t.prop[N1].stable && t.prop[N3].stable
    ensures t.runs.Keys == {0} && t.runs[0].instance == 2
  {
    hide RunsFreely, Reaches, Open;
    s := Beginning();
    var u := ViewTwo(s);
    t := Joined(u, N2, N1, 2, Text12());
    Then(s, u, t);
  }

  /** Node 2 voted for the proposal of run 1 in instance 3 and has not received the decision. */
  ghost predicate Lags(s: State) {
    && 1 in s.runs && N2 in s.acc && DecideReq(1, N2) in s.net
    && s.runs[1].instance == 3 && s.runs[1].newV == Text123() && s.runs[1].v == Text123() && s.runs[1].n.n > 0
    && var b := s.acc[N2]; b.instanceH == 2 && b.nH == s.runs[1].n && b.nA == s.runs[1].n && b.vA == Text123()
  }

  /** The prepare loop of a run over nodes 1 and 2 that asks both. */
  lemma AskBoth(s: State, r: nat) returns (t: State)
    requires InPhase(s, r, Preparing) && s.runs[r].k == 0 && s.runs[r].prep == EmptyPrep() && |s.runs[r].nodes| >= 2
    requires s.runs[r].nodes[..2] == [N1, N2] && N1 in s.acc && N2 in s.acc
    requires var run := s.runs[r];
             && run.instance > s.acc[N1].instanceH && Gt(run.n, s.acc[N1].nH)
             && s.acc[N1].nA.n == 0 && s.acc[N1].vA == ""
             && run.instance > s.acc[N2].instanceH && Gt(run.n, s.acc[N2].nH)
             && (s.acc[N2].nA.n == 0 ==> s.acc[N2].vA == "")
    ensures var run := s.runs[r];
            && OnlyRun(s, r, t)
            && t.acc == s.acc[N1 := Prepare(s.acc[N1], run.instance, run.n).0]
                             [N2 := Prepare(s.acc[N2], run.instance, run.n).0]
            && t.runs[r] == run.(k := 2, prep := t.runs[r].prep)
            && t.runs[r].prep.accepts == [N1, N2] && t.runs[r].prep.v == s.acc[N2].vA
            && PrepareAns(r, N2, Promised(s.acc[N2].nA, s.acc[N2].vA)) in t.net
  {
    hide RunsFreely, Reaches;
    var run := s.runs[r];
    assert run.nodes[..2][0] == run.nodes[0] && run.nodes[..2][1] == run.nodes[1];
    var u := Ask(s, r);
    t := Ask(u, r);
    assert [] + [N1] + [N2] == [N1, N2];
    OnlyRunThen(s, r, u, t);
  }

  /** View 3 adds node 3. Nodes 1 and 2 vote, node 1 learns the decision, the decide request to node 2 is delayed.
      Node 3 joins. */
  lemma ViewThree(s: State) returns (t: State)
    requires Three(s) && Open(s.acc[N1], 2, Text12()) && Open(s.acc[N2], 2, Text12()) && s.acc[N3] == Blank(N3)
    requires s.prop[N1].stable && s.prop[N3].stable && s.runs.Keys == {0} && s.runs[0].instance == 2
    ensures Reaches(s, t) && Three(t) && Open(t.acc[N1], 3, Text123()) && Open(t.acc[N3], 3, Text123()) && Lags(t)
    ensures t.prop[N1] == Proposer(true, t.runs[1].n.n) && t.prop[N3].stable
    ensures t.runs.Keys == {0, 1} && t.runs[0].instance == 2
  {
    hide Apply, RunsFreely, Reaches, Value, WordLen, Members, Hits, StrLess;
    ViewTexts();
    ConfigTexts();
    SmallMajorities();
    var x0 := Begin(s, N1, 1, 3, Text123());
    var x1 := AskBoth(x0, 1);
    var x2 := Settle(x1, 1, N1, N2);
    var x3 := SendOnly(x2, 1);
    var x4 := Finish(x3, 1);
    t := Joined(x4, N3, N1, 3, Text123());
    GtTotalOrder(x0.runs[1].n, x0.runs[1].n, x0.runs[1].n);
    Then(s, x0, x1);
    Then(s, x1, x2);
    Then(s, x2, x3);
    Then(s, x3, x4);
    Then(s, x4, t);
  }

  /** Run 2 wants to remove node 3 in instance 4 and asks nodes 1 and 2. Node 2 lags and reports what it accepted for
      instance 3, so run 2 decides that. */
  lemma StaleReport(s: State) returns (t: State)
    requires Three(s) && Open(s.acc[N1], 3, Text123()) && Open(s.acc[N3], 3, Text123()) && Lags(s)
    requires s.prop[N1] == Proposer(true, s.runs[1].n.n) && s.prop[N3].stable
    requires s.runs.Keys == {0, 1} && s.runs[0].instance == 2
    ensures Reaches(s, t) && Three(t) && Open(t.acc[N1], 4, Text123()) && t.acc[N3] == s.acc[N3]
    ensures 2 in t.runs && t.runs == s.runs[2 := t.runs[2]] && t.runs[2].instance == 4 && t.runs[2].newV == Text12()
    ensures s.net <= t.net && t.acc[N2].instanceH == 2 && t.prop[N3].stable
    ensures t.acc[N2].nA == t.runs[2].n && t.acc[N2].vA == t.runs[2].v && AcceptAns(2, N2, Ok(true)) in t.net
    ensures PrepareAns(2, N2, Promised(s.runs[1].n, s.runs[1].v)) in t.net
  {
    hide Apply, RunsFreely, Reaches, Value, WordLen, Members, Hits, StrLess;
    ViewTexts();
    ConfigTexts();
    SmallMajorities();
    var x0 := Begin(s, N1, 2, 4, Text12());
    var x1 := AskBoth(x0, 2);
    var x2 := Pass(x1, 2);
    t := Settle(x2, 2, N1, N2);
    GtTotalOrder(x0.runs[2].n, x0.runs[2].n, x0.runs[2].n);
    Then(s, x0, x1);
    Then(s, x1, x2);
    Then(s, x2, t);
  }

  /** Node 2 has decided instance 3 late. Run 3 wants to remove node 1, asks nodes 2 and 3, and decides its own value
      for instance 4. */
  lemma SecondViewFour(s: State) returns (t: State)
    requires Three(s) && Open(s.acc[N2], 3, Text123()) && Open(s.acc[N3], 3, Text123()) && s.prop[N3].stable
    requires s.runs.Keys == {0, 1, 2}
    ensures Reaches(s, t) && Three(t) && t.acc[N1] == s.acc[N1] && Open(t.acc[N2], 4, Text23()) && s.net <= t.net
    ensures 3 in t.runs && t.runs == s.runs[3 := t.runs[3]] && t.runs[3].newV == Text23()
  {
    hide Apply, RunsFreely, Reaches, Value, WordLen, Members, Hits, StrLess;
    ViewTexts();
    ConfigTexts();
    SmallMajorities();
    var x0 := Begin(s, N3, 3, 4, Text23());
    var x1 := Pass(x0, 3);
    var x2 := Ask(x1, 3);
    var x3 := Ask(x2, 3);
    assert [] + [N2] + [N3] == [N2, N3];
    t := Settle(x3, 3, N2, N3);
    Then(s, x0, x1);
    Then(s, x1, x2);
    Then(s, x2, x3);
    Then(s, x3, t);
  }

  // ---- what goes wrong in the run ----

  /** Two nodes hold view i, but not the same one. */
  ghost predicate Split(t: State, i: nat) {
    exists a, b :: a in t.acc && b in t.acc && t.acc[a].instanceH == i == t.acc[b].instanceH
      && ValueOf(t.acc[a].values, i) != ValueOf(t.acc[b].values, i)
  }

  /** A node holds a view i that no run of instance i was started with, but one of instance j was. */
  ghost predicate FromAnotherInstance(t: State, i: nat, j: nat) {
    exists a :: a in t.acc && t.acc[a].instanceH == i
      && (forall r :: r in t.runs && t.runs[r].instance == i ==> t.runs[r].newV != ValueOf(t.acc[a].values, i))
      && exists r :: r in t.runs && t.runs[r].instance == j && t.runs[r].newV == ValueOf(t.acc[a].values, i)
  }

  /** A promise to a run of instance i reports the proposal of a run of instance j. */
  ghost predicate ReportsAnotherInstance(t: State, i: nat, j: nat) {
    exists r, q, a :: r in t.runs && q in t.runs && t.runs[r].instance == i && t.runs[q].instance == j
      && PrepareAns(r, a, Promised(t.runs[q].n, t.runs[q].v)) in t.net
  }

  /** Node a has voted for run r and holds that vote for an open instance; delivering the decision of run q erases it
      and leaves the instance open. */
  ghost predicate ErasesVote(s: State, r: nat, q: nat, a: string) {
    && r in s.runs && Enabled(s, HandleDecide(q, a)) && AcceptAns(r, a, Ok(true)) in s.net
    && s.acc[a].nA == s.runs[r].n && s.acc[a].vA == s.runs[r].v
    && var u := Apply(s, HandleDecide(q, a)).acc[a];
       u.instanceH < s.runs[r].instance && u.nA.n == 0 && u.vA == ""
  }

  ghost predicate Wrong(t: State) {
    Split(t, 4) && FromAnotherInstance(t, 4, 3) && ReportsAnotherInstance(t, 4, 3)
  }

  lemma IsWrong(t: State)
    requires N1 in t.acc && N2 in t.acc && Open(t.acc[N1], 4, Text123()) && Open(t.acc[N2], 4, Text23())
    requires t.runs.Keys == {0, 1, 2, 3}
    requires t.runs[0].instance == 2 && t.runs[1].instance == 3 && t.runs[2].instance == 4
    requires t.runs[1].newV == Text123() && t.runs[2].newV == Text12() && t.runs[3].newV == Text23()
    requires PrepareAns(2, N2, Promised(t.runs[1].n, t.runs[1].v)) in t.net
    ensures Wrong(t)
  {
    hide Text12, Text123, Text23, Members;
    ViewTexts();
    var v1, v2 := ValueOf(t.acc[N1].values, 4), ValueOf(t.acc[N2].values, 4);
    assert v1 == Text123() && v2 == Text23();
    forall r | r in t.runs && t.runs[r].instance == 4
      ensures t.runs[r].newV != v1
    {
      assert r in t.runs.Keys;
    }
    assert 1 in t.runs && t.runs[1].newV == v1;
    assert FromAnotherInstance(t, 4, 3);
    assert 2 in t.runs && ReportsAnotherInstance(t, 4, 3);
  }

  /** The late decision of instance 3 erases node 2's vote for run 2. */
  lemma LateDecisionErases(s: State) returns (t: State)
    requires Three(s) && s.acc[N2].instanceH == 2 && DecideReq(1, N2) in s.net && 1 in s.runs && 2 in s.runs
    requires s.runs[1].instance == 3 && s.runs[1].v == Text123() && s.runs[2].instance == 4
    requires s.acc[N2].nA == s.runs[2].n && s.acc[N2].vA == s.runs[2].v && AcceptAns(2, N2, Ok(true)) in s.net
    ensures ErasesVote(s, 2, 1, N2) && t == Apply(s, HandleDecide(1, N2))
    ensures t == s.(acc := t.acc) && N2 in t.acc && t.acc == s.acc[N2 := t.acc[N2]] && Open(t.acc[N2], 3, Text123())
  {
    t := Apply(s, HandleDecide(1, N2));
  }

  /** A run from the initial state, driven by config, that leads to t through a vote erased by a late decision. */
  ghost predicate ErasingRun(s: State, steps: seq<Step>, x: State, r: nat, q: nat, a: string, more: seq<Step>,
        t: State)
  {
    && Init(s) && RunsFreely(s, steps, x) && ErasesVote(x, r, q, a)
    && RunsFreely(Apply(x, HandleDecide(q, a)), more, t)
  }

  /** Without the hypothesis both the total order of views and validity fail: config drives a run in which a promise for
      instance 4 reports what was accepted for instance 3, a late decision erases a vote, and in the end two nodes hold
      different views 4, one of them proposed for instance 3 only. */
  lemma LaggingAcceptorsSplitTheViews()
    ensures exists s, steps, x, r, q, a, more, t :: ErasingRun(s, steps, x, r, q, a, more, t) && Wrong(t)
  {
    hide RunsFreely, Value, Wrong, Init, Apply, ErasesVote, Open, FromConfig;
    var s, u := Opening();
    var w := ViewThree(u);
    assert Lags(w);
    var x := StaleReport(w);
    var y := LateDecisionErases(x);
    var t := SecondViewFour(y);
    IsWrong(t);
    Then(s, u, w);
    Then(s, w, x);
    var steps :| RunsFreely(s, steps, x);
    var more :| RunsFreely(y, more, t);
    assert ErasingRun(s, steps, x, 2, 1, N2, more, t);
  }
}
