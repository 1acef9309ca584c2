/** The main results about Paxos: one leader per ballot, P2c, validity, agreement and the total order of views. */
module PaxosAgreement {
  import opened PropNumbers
  import opened AcceptorSpec
  import opened ProposerSpec
  import opened Views
  import opened PaxosSystem
  import opened PaxosInvariant
  import opened PaxosSteps
  import P = PrimarySpec

  /** All runs of instance j ask the same nodes. */
  ghost predicate OneQuorumList(s: State, j: nat) {
    forall r, q | r in s.runs && q in s.runs && s.runs[r].instance == j && s.runs[q].instance == j ::
      s.runs[r].nodes == s.runs[q].nodes
  }

  /** The nodes of L, a majority of r's list, have all accepted r's proposal. */
  ghost predicate Chosen(s: State, r: nat, L: seq<string>)
    requires r in s.runs
  {
    Majority(s.runs[r].nodes, L) && forall a :: a in L ==> Voted(s, r, a)
  }

  /** Numbers may be reused after a restart, yet two runs never both collect a prepare majority for one number. */
  lemma OneLeaderPerBallot(s: State, r: nat, q: nat)
    requires Inv(s) && r in s.runs && q in s.runs
    requires s.runs[r].instance == s.runs[q].instance && s.runs[r].n == s.runs[q].n
    requires s.runs[r].nodes == s.runs[q].nodes
    requires Majority(s.runs[r].nodes, s.runs[r].prep.accepts) && Majority(s.runs[q].nodes, s.runs[q].prep.accepts)
    ensures r == q
  {
    MajoritiesMeet(s.runs[r].nodes, s.runs[r].prep.accepts, s.runs[q].prep.accepts);
    var a :| a in s.runs[r].prep.accepts && a in s.runs[q].prep.accepts;
    assert RunOk(s, r) && RunOk(s, q);
    assert ReportAtMost(s, r, a, s.runs[r].prep.max) && ReportAtMost(s, q, a, s.runs[q].prep.max);
    assert HasPromised(s, r, a) && HasPromised(s, q, a);
  }

  /** The runs of q's instance with smaller numbers. */
  ghost function Below(s: State, q: nat): set<nat>
    requires q in s.runs
  {
    set x | x in s.runs && s.runs[x].instance == s.runs[q].instance && Gt(s.runs[q].n, s.runs[x].n)
  }

  lemma BelowShrinks(s: State, x: nat, q: nat)
    requires q in s.runs && x in Below(s, q)
    ensures Below(s, x) < Below(s, q)
  {
    forall y | y in Below(s, x)
      ensures y in Below(s, q)
    {
      GtTotalOrder(s.runs[q].n, s.runs[x].n, s.runs[y].n);
    }
    GtTotalOrder(s.runs[x].n, s.runs[x].n, s.runs[x].n);
  }

  /** What r got accepted by a majority is at most the highest report q collected. */
  lemma ReportCovers(s: State, r: nat, q: nat, L: seq<string>)
    requires Inv(s) && r in s.runs && q in s.runs && Chosen(s, r, L)
    requires s.runs[r].instance == s.runs[q].instance && s.runs[r].nodes == s.runs[q].nodes
    requires Majority(s.runs[q].nodes, s.runs[q].prep.accepts) && Gt(s.runs[q].n, s.runs[r].n)
    ensures Ge(s.runs[q].prep.max, s.runs[r].n) && s.runs[q].prep.max.n > 0
  {
    var max := s.runs[q].prep.max;
    MajoritiesMeet(s.runs[r].nodes, L, s.runs[q].prep.accepts);
    var a :| a in L && a in s.runs[q].prep.accepts;
    assert RunOk(s, q) && RunOk(s, r) && Voted(s, r, a);
    assert ReportAtMost(s, q, a, max);
    var nA: Prop, vA: string :| PrepareAns(q, a, Promised(nA, vA)) in s.net && Ge(max, nA);
    assert MsgOk(s, PrepareAns(q, a, Promised(nA, vA)));
    GtTotalOrder(max, nA, s.runs[r].n);
    GtTotalOrder(nA, s.runs[r].n, max);
    GtTotalOrder(max, s.runs[r].n, max);
  }

  /** P2c: once a majority has accepted r's proposal, every proposal with a larger number carries its value. */
  lemma {:induction false} P2c(s: State, r: nat, q: nat, L: seq<string>)
    requires Inv(s) && r in s.runs && q in s.runs && Chosen(s, r, L) && OneQuorumList(s, s.runs[r].instance)
    requires s.runs[r].phase != Preparing && s.runs[q].phase != Preparing
    requires s.runs[r].instance == s.runs[q].instance && Gt(s.runs[q].n, s.runs[r].n)
    ensures s.runs[q].v == s.runs[r].v
    decreases Below(s, q)
  {
    var run := s.runs[q];
    assert RunOk(s, q) && RunOk(s, r);
    ReportCovers(s, r, q, L);
    assert PrepOk(s, q, run);
    var x :| x in s.runs && ProposedBy(s.runs[x], run.instance, run.prep.max, run.prep.v);
    GtTotalOrder(run.prep.max, s.runs[r].n, run.n);
    assert RunOk(s, x);
    if run.prep.max == s.runs[r].n {
      OneLeaderPerBallot(s, x, r);
    } else {
      BelowShrinks(s, x, q);
      P2c(s, r, x, L);
    }
  }

  /** Two proposals of an instance that a majority accepted carry the same value. */
  lemma ChosenOnce(s: State, r: nat, q: nat, L: seq<string>, M: seq<string>)
    requires Inv(s) && r in s.runs && q in s.runs && Chosen(s, r, L) && Chosen(s, q, M)
    requires OneQuorumList(s, s.runs[r].instance) && s.runs[r].instance == s.runs[q].instance
    requires s.runs[r].phase != Preparing && s.runs[q].phase != Preparing
    ensures s.runs[r].v == s.runs[q].v
  {
    GtTotalOrder(s.runs[r].n, s.runs[q].n, s.runs[r].n);
    if Gt(s.runs[r].n, s.runs[q].n) {
      P2c(s, q, r, M);
    } else if Gt(s.runs[q].n, s.runs[r].n) {
      P2c(s, r, q, L);
    } else {
      assert RunOk(s, r) && RunOk(s, q);
      OneLeaderPerBallot(s, r, q);
    }
  }

  /** A majority needs a list that is not empty, and instance 1 has none: view 1 is never voted on. */
  lemma FirstViewIsGiven(s: State, r: nat)
    requires Inv(s) && r in s.runs && s.runs[r].phase != Preparing
    ensures s.runs[r].instance > 1
  {
    assert RunOk(s, r) && AccOk(s, s.runs[r].node);
    if s.runs[r].instance == 1 {
      NoMajorityOfNone(s.runs[r].prep.accepts);
    }
  }

  /** Agreement, for every instance: at most one value is ever decided, and all runs of the next instance
      ask the members of that view. */
  lemma {:induction false} Agreement(s: State, j: nat, v: string, w: string)
    requires Inv(s) && Decided(s, j, v) && Decided(s, j, w)
    ensures v == w
    decreases j, 1
  {
    if j == 1 {
      forall r | r in s.runs && (DecidedBy(s.runs[r], j, v) || DecidedBy(s.runs[r], j, w))
        ensures false
      {
        FirstViewIsGiven(s, r);
      }
    } else {
      var r :| r in s.runs && DecidedBy(s.runs[r], j, v);
      var q :| q in s.runs && DecidedBy(s.runs[q], j, w);
      assert RunOk(s, r) && RunOk(s, q);
      FirstViewIsGiven(s, r);
      QuorumListsAgree(s, j);
      ChosenOnce(s, r, q, s.runs[r].voters, s.runs[q].voters);
    }
  }

  /** Induction over instances: the quorum list of instance j is view j - 1, and there is only one view j - 1. */
  lemma {:induction false} QuorumListsAgree(s: State, j: nat)
    requires Inv(s) && j > 1
    ensures OneQuorumList(s, j)
    decreases j, 0
  {
    forall r, q | r in s.runs && q in s.runs && s.runs[r].instance == j && s.runs[q].instance == j
      ensures s.runs[r].nodes == s.runs[q].nodes
    {
      assert RunOk(s, r) && RunOk(s, q);
      var a, b := s.acc[s.runs[r].node], s.acc[s.runs[q].node];
      assert AccOk(s, s.runs[r].node) && AccOk(s, s.runs[q].node);
      assert Decided(s, j - 1, a.values[j - 1]) && Decided(s, j - 1, b.values[j - 1]);
      Agreement(s, j - 1, a.values[j - 1], b.values[j - 1]);
    }
  }

  /** Validity: the value of a proposal is what some run of the same instance was started with. */
  lemma {:induction false} Validity(s: State, q: nat)
    requires Inv(s) && q in s.runs && s.runs[q].phase != Preparing
    ensures s.runs[q].v != ""
    ensures exists x :: x in s.runs && s.runs[x].instance == s.runs[q].instance && s.runs[x].newV == s.runs[q].v
    decreases Below(s, q)
  {
    var run := s.runs[q];
    assert RunOk(s, q) && PrepOk(s, q, run);
    if run.prep.v != "" {
      var y :| y in s.runs && ProposedBy(s.runs[y], run.instance, run.prep.max, run.prep.v);
      BelowShrinks(s, y, q);
      Validity(s, y);
    }
  }

  /** Total order of views: in every reachable state all nodes that hold view j hold the same view, no view is
      skipped, and every view after the first was proposed by some run of that instance. */
  lemma ViewsAreTotallyOrdered(s0: State, steps: seq<Step>, s: State, a: string, b: string, j: nat)
    requires Init(s0) && Runs(s0, steps, s) && a in s.acc && b in s.acc
    requires 1 <= j <= s.acc[a].instanceH && j <= s.acc[b].instanceH
    ensures j in s.acc[a].values && j in s.acc[b].values && s.acc[a].values[j] == s.acc[b].values[j]
    ensures j > 1 ==> exists r :: r in s.runs && s.runs[r].instance == j && s.runs[r].newV == s.acc[a].values[j]
  {
    Reachable(s0, steps, s);
    assert AccOk(s, a) && AccOk(s, b);
    Agreement(s, j, s.acc[a].values[j], s.acc[b].values[j]);
    if j > 1 {
      var r :| r in s.runs && DecidedBy(s.runs[r], j, s.acc[a].values[j]);
      Validity(s, r);
    }
  }

  /** P2c over every run of the system, in terms of the requests sent. */
  lemma AcceptRequestsCarryTheChosenValue(s0: State, steps: seq<Step>, s: State, r: nat, L: seq<string>,
        q: nat, to: string)
    requires Init(s0) && Runs(s0, steps, s) && r in s.runs && q in s.runs
    requires Chosen(s, r, L) && AcceptReq(q, to) in s.net
    requires s.runs[r].instance == s.runs[q].instance && Gt(s.runs[q].n, s.runs[r].n)
    ensures s.runs[q].v == s.runs[r].v
  {
    Reachable(s0, steps, s);
    assert MsgOk(s, AcceptReq(q, to));
    MajoritiesMeet(s.runs[r].nodes, L, L);
    var a :| a in L;
    assert Voted(s, r, a) && MsgOk(s, AcceptAns(r, a, Ok(true)));
    FirstViewIsGiven(s, r);
    QuorumListsAgree(s, s.runs[r].instance);
    P2c(s, r, q, L);
  }

  /** What a proposer learns from an old-instance reply is the decided value, so committing it is safe. */
  lemma OldInstanceRepliesAgree(s0: State, steps: seq<Step>, s: State, r: nat, from: string, v: string, a: string)
    requires Init(s0) && Runs(s0, steps, s) && PrepareAns(r, from, OldInstance(v)) in s.net
    requires r in s.runs && a in s.acc && s.runs[r].instance <= s.acc[a].instanceH
    ensures s.runs[r].instance in s.acc[a].values && s.acc[a].values[s.runs[r].instance] == v
  {
    Reachable(s0, steps, s);
    assert MsgOk(s, PrepareAns(r, from, OldInstance(v))) && AccOk(s, a) && RunOk(s, r);
    Agreement(s, s.runs[r].instance, v, s.acc[a].values[s.runs[r].instance]);
  }

  /** Agreement across time: a view committed at one moment is what any node holds for it at any later moment. */
  lemma CommittedViewsNeverChange(s0: State, early: seq<Step>, s: State, later: seq<Step>, t: State,
        a: string, b: string, j: nat)
    requires Init(s0) && Runs(s0, early, s) && Runs(s, later, t)
    requires a in s.acc && 1 <= j <= s.acc[a].instanceH && b in t.acc && j <= t.acc[b].instanceH
    ensures j in s.acc[a].values && j in t.acc[b].values && t.acc[b].values[j] == s.acc[a].values[j]
  {
    Reachable(s0, early, s);
    RunsKept(s, later, t);
    assert AccAdvances(s.acc[a], t.acc[a]);
    assert AccOk(s, a) && AccOk(t, a) && AccOk(t, b);
    assert ValueOf(s.acc[a].values, j) == ValueOf(t.acc[a].values, j);
    Agreement(t, j, t.acc[a].values[j], t.acc[b].values[j]);
  }

  /** Within an instance, what a node accepted is at most what it promised, and neither ever goes down. */
  lemma NumbersNeverDecrease(s0: State, early: seq<Step>, s: State, later: seq<Step>, t: State, a: string)
    requires Init(s0) && Runs(s0, early, s) && Runs(s, later, t) && a in s.acc
    requires a in t.acc ==> s.acc[a].instanceH == t.acc[a].instanceH
    ensures a in t.acc
    ensures s.acc[a].nA.n > 0 ==> Ge(s.acc[a].nH, s.acc[a].nA) && Ge(t.acc[a].nA, s.acc[a].nA)
    ensures s.acc[a].nH.n > 0 ==> Ge(t.acc[a].nH, s.acc[a].nH)
  {
    Reachable(s0, early, s);
    RunsKept(s, later, t);
    assert AccAdvances(s.acc[a], t.acc[a]) && AccOk(s, a);
    GtTotalOrder(s.acc[a].nH, s.acc[a].nH, s.acc[a].nH);
    GtTotalOrder(s.acc[a].nA, s.acc[a].nA, s.acc[a].nA);
  }

  /** One leader per ballot over every run of the system, restarts included. */
  lemma OneLeaderInEveryRun(s0: State, steps: seq<Step>, s: State, r: nat, q: nat)
    requires Init(s0) && Runs(s0, steps, s) && r in s.runs && q in s.runs
    requires s.runs[r].instance == s.runs[q].instance && s.runs[r].n == s.runs[q].n
    requires Majority(s.runs[r].nodes, s.runs[r].prep.accepts) && Majority(s.runs[q].nodes, s.runs[q].prep.accepts)
    ensures r == q
  {
    Reachable(s0, steps, s);
    assert RunOk(s, r) && AccOk(s, s.runs[r].node);
    if s.runs[r].instance == 1 {
      NoMajorityOfNone(s.runs[r].prep.accepts);
    }
    QuorumListsAgree(s, s.runs[r].instance);
    OneLeaderPerBallot(s, r, q);
  }

  /** Views 0 to k as a node holds them; there is no view 0. */
  function ViewsHeld(t: AccState, k: nat): (vs: seq<seq<string>>)
    ensures |vs| == k + 1
  {
    seq(k + 1, i requires 0 <= i <= k => Members(ValueOf(t.values, i)))
  }

  lemma SameViewsHeld(s0: State, steps: seq<Step>, s: State, a: string, b: string, k: nat)
    requires Init(s0) && Runs(s0, steps, s) && a in s.acc && b in s.acc
    requires k <= s.acc[a].instanceH && k <= s.acc[b].instanceH
    ensures ViewsHeld(s.acc[a], k) == ViewsHeld(s.acc[b], k)
  {
    Reachable(s0, steps, s);
    forall i: nat | i <= k
      ensures ValueOf(s.acc[a].values, i) == ValueOf(s.acc[b].values, i)
    {
      if i == 0 {
        assert AccOk(s, a) && AccOk(s, b);
      } else {
        ViewsAreTotallyOrdered(s0, steps, s, a, b, i);
      }
    }
  }

  /** All logs are parts of one history of views. */
  ghost predicate IsHistory(s: State, views: seq<seq<string>>) {
    forall a, i: nat {:trigger ValueOf(s.acc[a].values, i)} :: a in s.acc && i <= s.acc[a].instanceH ==>
      i < |views| && views[i] == Members(ValueOf(s.acc[a].values, i))
  }

  lemma {:induction false} HighestNode(s: State, A: set<string>)
    requires A <= s.acc.Keys && A != {}
    ensures exists h :: h in A && forall a :: a in A ==> s.acc[a].instanceH <= s.acc[h].instanceH
    decreases |A|
  {
    var x :| x in A;
    if A != {x} {
      HighestNode(s, A - {x});
      var h :| h in A - {x} && forall a :: a in A - {x} ==> s.acc[a].instanceH <= s.acc[h].instanceH;
      var g := if s.acc[x].instanceH > s.acc[h].instanceH then x else h;
      assert forall a :: a in A ==> a == x || a in A - {x};
      assert g in A && forall a :: a in A ==> s.acc[a].instanceH <= s.acc[g].instanceH;
    }
  }

  /** In every run there is one history of views that every node's log is the beginning of. */
  lemma ViewsFormOneHistory(s0: State, steps: seq<Step>, s: State)
    requires Init(s0) && Runs(s0, steps, s)
    ensures exists views :: IsHistory(s, views)
  {
    if s.acc.Keys == {} {
      assert IsHistory(s, []);
    } else {
      HighestNode(s, s.acc.Keys);
      var h :| h in s.acc.Keys && forall a :: a in s.acc.Keys ==> s.acc[a].instanceH <= s.acc[h].instanceH;
      var views := ViewsHeld(s.acc[h], s.acc[h].instanceH);
      forall a, i: nat | a in s.acc && i <= s.acc[a].instanceH
        ensures views[i] == Members(ValueOf(s.acc[a].values, i))
      {
        SameViewsHeld(s0, steps, s, a, h, s.acc[a].instanceH);
        assert ViewsHeld(s.acc[a], s.acc[a].instanceH)[i] == ViewsHeld(s.acc[h], s.acc[a].instanceH)[i];
      }
      assert IsHistory(s, views);
    }
  }

  /** Nodes a and b with primaries x and y in view m, which commit the views up to k from their own logs, agree on the
      primary of view k if and only if they agreed in view m or have met since. */
  lemma PrimariesAgree(s0: State, steps: seq<Step>, s: State, a: string, x: string, b: string, y: string,
        m: nat, k: nat)
    requires Init(s0) && Runs(s0, steps, s) && a in s.acc && b in s.acc
    requires m <= k <= s.acc[a].instanceH && k <= s.acc[b].instanceH
    ensures P.PrimaryFrom(x, ViewsHeld(s.acc[a], k), m, k) == P.PrimaryFrom(y, ViewsHeld(s.acc[b], k), m, k) <==>
            x == y || P.HaveMet(x, y, ViewsHeld(s.acc[a], k), m, k)
  {
    SameViewsHeld(s0, steps, s, a, b, k);
    P.PrimariesAgreeExactlyWhen(x, y, ViewsHeld(s.acc[a], k), m, k);
  }
}
