/** Nothing gets stuck in the Paxos system: a node runs one proposer at a time, every run can come to its end whatever
    is lost, and when a majority of the latest view has that view, a next one can always be decided. */
module PaxosProgress {
  import opened PropNumbers
  import opened AcceptorSpec
  import opened ProposerSpec
  import opened Views
  import opened PaxosSystem

  // ---- one run at a time ----

  ghost predicate Running(s: State, r: nat, p: string) {
    r in s.runs && s.runs[r].live && s.runs[r].node == p
  }

  predicate InLoop(run: Run) {
    run.k <= match run.phase
             case Preparing => |run.nodes|
             case Accepting => |run.prep.accepts|
             case Deciding => |run.voters|
  }

  ghost predicate RunsOk(s: State) {
    && s.prop.Keys == s.acc.Keys
    && forall r {:trigger s.runs[r]} :: r in s.runs ==> s.runs[r].node in s.prop && InLoop(s.runs[r])
  }

  /** p is stable exactly when no run of p is live, and there is never more than one. */
  ghost predicate OneAtATime(s: State, p: string)
    requires p in s.prop
  {
    && (s.prop[p].stable <==> forall r :: !Running(s, r, p))
    && forall r, q :: Running(s, r, p) && Running(s, q, p) ==> r == q
  }

  ghost predicate Tidy(s: State) {
    RunsOk(s) && forall p {:trigger OneAtATime(s, p)} :: p in s.prop ==> OneAtATime(s, p)
  }

  /** Every live run is where it was, at a position within its loop. */
  lemma SameRunsTidy(s: State, t: State)
    requires Tidy(s) && t.prop == s.prop && t.acc.Keys == s.acc.Keys && t.runs.Keys == s.runs.Keys
    requires forall r {:trigger t.runs[r]} :: r in s.runs ==>
               t.runs[r].node == s.runs[r].node && t.runs[r].live == s.runs[r].live && InLoop(t.runs[r])
    ensures Tidy(t)
  {
    hide InLoop;
    forall r | r in t.runs
      ensures t.runs[r].node in t.prop
    {
      assert s.runs[r].node in s.prop;
    }
    forall p | p in t.prop
      ensures OneAtATime(t, p)
    {
      assert OneAtATime(s, p);
      assert forall r :: Running(t, r, p) <==> Running(s, r, p);
    }
  }

  lemma StopTidy(s: State, r: nat)
    requires Tidy(s) && r in s.runs && s.runs[r].live && s.runs[r].node in s.prop
    ensures Tidy(Stop(s, r))
  {
    hide InLoop;
    var t := Stop(s, r);
    forall q | q in t.runs
      ensures t.runs[q].node in t.prop && InLoop(t.runs[q])
    {
      assert s.runs[q].node in s.prop && InLoop(s.runs[q]);
      assert InLoop(s.runs[r]) ==> InLoop(s.runs[r].(live := false)) by {
        NotLiveInLoop(s.runs[r]);
      }
    }
    forall p | p in t.prop
      ensures OneAtATime(t, p)
    {
      assert OneAtATime(s, p) && Running(s, r, s.runs[r].node);
      assert forall q :: Running(t, q, p) <==> Running(s, q, p) && q != r;
    }
  }

  lemma NotLiveInLoop(run: Run)
    requires InLoop(run)
    ensures InLoop(run.(live := false))
  {
  }

  lemma StartTidy(s: State, p: string, r: nat, j: nat, newV: string)
    requires Tidy(s) && Enabled(s, Start(p, r, j, newV))
    ensures Tidy(Apply(s, Start(p, r, j, newV)))
  {
    var t := Apply(s, Start(p, r, j, newV));
    forall q | q in t.runs
      ensures t.runs[q].node in t.prop && InLoop(t.runs[q])
    {
      assert q != r ==> s.runs[q].node in s.prop && InLoop(s.runs[q]);
    }
    forall a | a in t.prop
      ensures OneAtATime(t, a)
    {
      assert OneAtATime(s, a);
      assert forall q :: Running(t, q, a) <==> Running(s, q, a) || (q == r && a == p);
    }
  }

  lemma CrashTidy(s: State, p: string, used: nat)
    requires Tidy(s) && Enabled(s, Crash(p, used))
    ensures Tidy(Apply(s, Crash(p, used)))
  {
    hide InLoop, Restart;
    var t := Apply(s, Crash(p, used));
    forall q | q in t.runs
      ensures t.runs[q].node in t.prop && InLoop(t.runs[q])
    {
      assert s.runs[q].node in s.prop && InLoop(s.runs[q]);
      NotLiveInLoop(s.runs[q]);
    }
    forall a | a in t.prop
      ensures OneAtATime(t, a)
    {
      assert OneAtATime(s, a);
      assert forall q :: Running(t, q, a) <==> Running(s, q, a) && a != p;
    }
  }

  lemma RunTidy(s: State, r: nat, run: Run)
    requires Tidy(s) && r in s.runs && run.node == s.runs[r].node && run.live == s.runs[r].live && InLoop(run)
    ensures Tidy(WithRun(s, r, run))
  {
    hide InLoop;
    forall q | q in s.runs
      ensures InLoop(s.runs[q])
    {
    }
    SameRunsTidy(s, WithRun(s, r, run));
  }

  lemma AccTidy(s: State, a: string, u: AccState)
    requires Tidy(s) && a in s.acc
    ensures Tidy(WithAcc(s, a, u))
  {
    hide InLoop;
    SameRunsTidy(s, WithAcc(s, a, u));
  }

  lemma MsgTidy(s: State, m: Msg)
    requires Tidy(s)
    ensures Tidy(WithMsg(s, m))
  {
    hide InLoop;
    SameRunsTidy(s, WithMsg(s, m));
  }

  lemma StepTidy(s: State, st: Step)
    requires Tidy(s) && Enabled(s, st)
    ensures Tidy(Apply(s, st))
  {
    hide Tidy, Prepare, Accept, Commit, Restart, Replay, Majority, PrepareOne;
    match st {
      case Start(p, r, j, newV) => StartTidy(s, p, r, j, newV);
      case SendPrepare(r) => MsgTidy(s, PrepareReq(r, s.runs[r].nodes[s.runs[r].k]));
      case HandlePrepare(r, a) =>
        var (t, res) := Prepare(s.acc[a], s.runs[r].instance, s.runs[r].n);
        AccTidy(s, a, t);
        MsgTidy(WithAcc(s, a, t), PrepareAns(r, a, res));
      case RecvPrepare(r, res) =>
        var run := s.runs[r];
        if res.OldInstance? {
          AccTidy(s, run.node, Commit(s.acc[run.node], run.instance, res.v));
          StopTidy(WithAcc(s, run.node, Commit(s.acc[run.node], run.instance, res.v)), r);
        } else {
          RunTidy(s, r, run.(prep := PrepareOne(run.prep, run.nodes[run.k], res), k := run.k + 1));
        }
      case SkipPrepare(r) => RunTidy(s, r, s.runs[r].(k := s.runs[r].k + 1));
      case EndPrepare(r) =>
        var run := s.runs[r];
        if Majority(run.nodes, run.prep.accepts) {
          RunTidy(s, r, run.(phase := Accepting, k := 0, v := if run.prep.v == "" then run.newV else run.prep.v));
        } else {
          StopTidy(s, r);
        }
      case SendAccept(r) => MsgTidy(s, AcceptReq(r, s.runs[r].prep.accepts[s.runs[r].k]));
      case HandleAccept(r, a) =>
        var (t, res) := Accept(s.acc[a], s.runs[r].instance, s.runs[r].n, s.runs[r].v);
        AccTidy(s, a, t);
        MsgTidy(WithAcc(s, a, t), AcceptAns(r, a, res));
      case RecvAccept(r, res) => RunTidy(s, r, DoRecvAccept(s, r, res).runs[r]);
      case SkipAccept(r) => RunTidy(s, r, s.runs[r].(k := s.runs[r].k + 1));
      case EndAccept(r) =>
        if Majority(s.runs[r].nodes, s.runs[r].voters) {
          RunTidy(s, r, s.runs[r].(phase := Deciding, k := 0));
        } else {
          StopTidy(s, r);
        }
      case SendDecide(r) =>
        var m := DecideReq(r, s.runs[r].voters[s.runs[r].k]);
        MsgTidy(s, m);
        RunTidy(WithMsg(s, m), r, s.runs[r].(k := s.runs[r].k + 1));
      case HandleDecide(r, a) => AccTidy(s, a, Commit(s.acc[a], s.runs[r].instance, s.runs[r].v));
      case EndRun(r) => StopTidy(s, r);
      case Crash(p, used) => CrashTidy(s, p, used);
      case Dump(q) => MsgTidy(s, LogDump(s.acc[q].log));
      case Join(p, log) => AccTidy(s, p, Replay(s.acc[p], log).(log := log));
    }
  }

  /** Any run of the system, delays included. */
  ghost predicate AnyRun(s: State, steps: seq<Step>, t: State)
    decreases |steps|
  {
    if |steps| == 0 then s == t
    else Enabled(s, steps[0]) && AnyRun(Apply(s, steps[0]), steps[1..], t)
  }

  lemma {:induction false} RunsTidy(s: State, steps: seq<Step>, t: State)
    requires Tidy(s) && AnyRun(s, steps, t)
    ensures Tidy(t)
    decreases |steps|
  {
    hide Tidy, Apply;
    if |steps| > 0 {
      StepTidy(s, steps[0]);
      RunsTidy(Apply(s, steps[0]), steps[1..], t);
    }
  }

  /** A node runs one proposer at a time, and its proposer is busy exactly as long as a run of it is live: no way out of
      a run, crashes included, leaves it busy for ever. */
  lemma OneRunAtATime(s0: State, steps: seq<Step>, s: State, p: string)
    requires Init(s0) && AnyRun(s0, steps, s) && p in s.prop
    ensures s.prop[p].stable <==> forall r :: !Running(s, r, p)
    ensures forall r, q :: Running(s, r, p) && Running(s, q, p) ==> r == q
  {
    assert Tidy(s0);
    RunsTidy(s0, steps, s);
    assert OneAtATime(s, p);
  }

  // ---- runs end ----

  ghost predicate Reaches(s: State, t: State) {
    exists steps :: Runs(s, steps, t)
  }

  lemma Stay(s: State)
    ensures Reaches(s, s)
  {
    assert Runs(s, [], s);
  }

  lemma {:induction false} Append(s: State, xs: seq<Step>, t: State, ys: seq<Step>, u: State)
    requires Runs(s, xs, t) && Runs(t, ys, u)
    ensures Runs(s, xs + ys, u)
    decreases |xs|
  {
    hide Apply, Enabled, NoLag;
    if |xs| == 0 {
      assert xs + ys == ys;
    } else {
      Append(Apply(s, xs[0]), xs[1..], t, ys, u);
      assert (xs + ys)[1..] == xs[1..] + ys;
    }
  }

  lemma Trans(s: State, t: State, u: State)
    requires Reaches(s, t) && Reaches(t, u)
    ensures Reaches(s, u)
  {
    var xs :| Runs(s, xs, t);
    var ys :| Runs(t, ys, u);
    Append(s, xs, t, ys, u);
  }

  lemma Do(s: State, st: Step) returns (t: State)
    requires Tidy(s) && Enabled(s, st) && NoLag(s, st)
    ensures t == Apply(s, st) && Reaches(s, t) && Tidy(t)
  {
    hide Tidy;
    t := Apply(s, st);
    StepTidy(s, st);
    assert [st][1..] == [];
    assert Runs(t, [], t);
    assert Runs(s, [st], t);
  }

  /** From s to t run r comes to its end, its proposer is stable again, and no acceptor changes. */
  ghost predicate Ended(s: State, r: nat, t: State) {
    && Reaches(s, t) && Tidy(t) && t.first == s.first && t.acc == s.acc && r in s.runs && r in t.runs && !t.runs[r].live
    && t.runs == s.runs[r := t.runs[r]] && t.runs[r].node == s.runs[r].node
    && s.runs[r].node in s.prop && t.prop == s.prop[s.runs[r].node := s.prop[s.runs[r].node].(stable := true)]
  }

  lemma RunIsInItsPhase(s: State, r: nat)
    requires Tidy(s) && r in s.runs && s.runs[r].live
    ensures InPhase(s, r, s.runs[r].phase) && InLoop(s.runs[r])
  {
  }

  /** Whatever is lost, a run gets through its loops. */
  lemma Ends(s: State, r: nat) returns (t: State)
    requires Tidy(s) && r in s.runs && s.runs[r].live
    ensures Ended(s, r, t)
    decreases match s.runs[r].phase
              case Preparing => 2
              case Accepting => 1
              case Deciding => 0,
              match s.runs[r].phase
              case Preparing => |s.runs[r].nodes| - s.runs[r].k
              case Accepting => |s.runs[r].prep.accepts| - s.runs[r].k
              case Deciding => |s.runs[r].voters| - s.runs[r].k
  {
    hide Tidy, Reaches, Majority;
    RunIsInItsPhase(s, r);
    var run := s.runs[r];
    var st := match run.phase
              case Preparing => if run.k < |run.nodes| then SkipPrepare(r) else EndPrepare(r)
              case Accepting => if run.k < |run.prep.accepts| then SkipAccept(r) else EndAccept(r)
              case Deciding => if run.k < |run.voters| then SendDecide(r) else EndRun(r);
    var u := Do(s, st);
    if u.runs[r].live {
      t := Ends(u, r);
      Trans(s, u, t);
    } else {
      t := u;
    }
  }

  /** In every reachable state every live run can come to its end even if all messages are lost; then its proposer is
      stable and no acceptor has changed. */
  lemma EveryRunCanEnd(s0: State, steps: seq<Step>, s: State, r: nat)
    requires Init(s0) && AnyRun(s0, steps, s) && r in s.runs && s.runs[r].live
    ensures exists t :: Ended(s, r, t)
  {
    hide Ended;
    assert Tidy(s0);
    RunsTidy(s0, steps, s);
    var t := Ends(s, r);
  }

  // ---- numbers rise ----

  lemma {:induction false} FreshRun(used: set<nat>) returns (r: nat)
    ensures r !in used && forall q :: q in used ==> q < r
    decreases |used|
  {
    if used == {} {
      r := 0;
    } else {
      var x :| x in used;
      var y := FreshRun(used - {x});
      r := if x < y then y else x + 1;
      forall q | q in used
        ensures q < r
      {
        assert q == x || q in used - {x};
      }
    }
  }

  /** p has no live run; nothing else has changed since s. */
  ghost predicate Ready(s: State, p: string, t: State) {
    Reaches(s, t) && Tidy(t) && t.first == s.first && t.acc == s.acc && p in t.prop && t.prop[p].stable
  }

  lemma BecomesReady(s: State, p: string) returns (t: State)
    requires Tidy(s) && p in s.prop
    ensures Ready(s, p, t)
  {
    hide Reaches;
    if s.prop[p].stable {
      t := s;
      Stay(s);
    } else {
      assert OneAtATime(s, p);
      var r: nat :| Running(s, r, p);
      t := Ends(s, r);
    }
  }

  /** By runs that come to nothing a proposer's number rises above any bound. */
  lemma Raises(s: State, p: string, j: nat, newV: string, bound: nat) returns (t: State)
    requires Tidy(s) && p in s.prop && p in s.acc && s.prop[p].stable && newV != "" && 1 <= j <= s.acc[p].instanceH + 1
    ensures Ready(s, p, t) && t.prop[p].used >= bound
    decreases bound - s.prop[p].used
  {
    hide Tidy, Reaches;
    if s.prop[p].used >= bound {
      t := s;
      Stay(s);
    } else {
      var r := FreshRun(s.runs.Keys);
      var u := Do(s, Start(p, r, j, newV));
      var w := Ends(u, r);
      t := Raises(w, p, j, newV, bound);
      Trans(s, u, w);
      Trans(s, w, t);
    }
  }

  lemma {:induction false} PromisesAreBounded(s: State, good: seq<string>) returns (bound: nat)
    requires forall a :: a in good ==> a in s.acc
    ensures forall a :: a in good ==> s.acc[a].nH.n <= bound
    decreases |good|
  {
    if good == [] {
      bound := 0;
    } else {
      var b := PromisesAreBounded(s, good[1..]);
      var n := s.acc[good[0]].nH.n;
      bound := if n > b then n else b;
      assert forall a :: a in good ==> a == good[0] || a in good[1..];
    }
  }

  // ---- a next view is decided ----

  /** The node at the loop's position is asked to prepare and promises. */
  lemma Promise(s: State, r: nat) returns (t: State)
    requires Tidy(s) && InPhase(s, r, Preparing) && s.runs[r].k < |s.runs[r].nodes|
    requires s.runs[r].nodes[s.runs[r].k] in s.acc
    requires var run := s.runs[r];
             var b := s.acc[run.nodes[run.k]];
             run.instance == b.instanceH + 1 && Gt(run.n, b.nH)
    ensures var run := s.runs[r];
            var a := run.nodes[run.k];
            var b := s.acc[a];
            && Reaches(s, t) && Tidy(t) && r in t.runs && InPhase(t, r, Preparing)
            && t.acc == s.acc[a := b.(nH := run.n, log := b.log + [High(run.n)])]
            && t.runs[r] == run.(k := run.k + 1, prep := PrepareOne(run.prep, a, Promised(b.nA, b.vA)))
  {
    hide Reaches, Tidy;
    var a := s.runs[r].nodes[s.runs[r].k];
    var b := s.acc[a];
    var u := Do(s, SendPrepare(r));
    var w := Do(u, HandlePrepare(r, a));
    t := Do(w, RecvPrepare(r, Promised(b.nA, b.vA)));
    Trans(s, u, w);
    Trans(s, w, t);
  }

  /** The promiser at the loop's position votes. */
  lemma Vote(s: State, r: nat) returns (t: State)
    requires Tidy(s) && InPhase(s, r, Accepting) && s.runs[r].k < |s.runs[r].prep.accepts|
    requires s.runs[r].prep.accepts[s.runs[r].k] in s.acc
    requires var run := s.runs[r];
             var b := s.acc[run.prep.accepts[run.k]];
             run.instance == b.instanceH + 1 && b.nH == run.n
    ensures var run := s.runs[r];
            var a := run.prep.accepts[run.k];
            var b := s.acc[a];
            && Reaches(s, t) && Tidy(t) && r in t.runs && InPhase(t, r, Accepting)
            && t.acc == s.acc[a := b.(nA := run.n, vA := run.v, log := b.log + [Accepted(run.n, run.v)])]
            && t.runs[r] == run.(k := run.k + 1, voters := run.voters + [a])
  {
    hide Reaches, Tidy;
    var a := s.runs[r].prep.accepts[s.runs[r].k];
    GtTotalOrder(s.runs[r].n, s.runs[r].n, s.runs[r].n);
    var u := Do(s, SendAccept(r));
    var w := Do(u, HandleAccept(r, a));
    t := Do(w, RecvAccept(r, Ok(true)));
    Trans(s, u, w);
    Trans(s, w, t);
  }

  /** a has decided view i as v. */
  predicate Has(s: State, a: string, i: nat, v: string) {
    a in s.acc && s.acc[a].instanceH == i && ValueOf(s.acc[a].values, i) == v
  }

  /** The voter at the loop's position learns the decision, or has it already. */
  lemma Learns(s: State, r: nat) returns (t: State)
    requires Tidy(s) && InPhase(s, r, Deciding) && s.runs[r].k < |s.runs[r].voters|
    requires s.runs[r].voters[s.runs[r].k] in s.acc
    requires var run := s.runs[r];
             var a := run.voters[run.k];
             run.instance == s.acc[a].instanceH + 1 || Has(s, a, run.instance, run.v)
    ensures var run := s.runs[r];
            var a := run.voters[run.k];
            && Reaches(s, t) && Tidy(t) && r in t.runs && InPhase(t, r, Deciding)
            && Has(t, a, run.instance, run.v) && t.acc == s.acc[a := t.acc[a]] && t.runs[r] == run.(k := run.k + 1)
  {
    hide Reaches, Tidy;
    var u := Do(s, SendDecide(r));
    t := Do(u, HandleDecide(r, s.runs[r].voters[s.runs[r].k]));
    Trans(s, u, t);
  }

  /** The nodes that take part: they have view j and are asked for the next one with number n. */
  ghost predicate Takes(s: State, a: string, j: nat, n: Prop, promised: bool) {
    a in s.acc && s.acc[a].instanceH == j && (if promised then s.acc[a].nH == n else Gt(n, s.acc[a].nH))
  }

  /** The fields of a run that do not change, and its phase. */
  predicate RunOf(s: State, r: nat, phase: Phase, j: nat, n: Prop, nodes: seq<string>, newV: string) {
    && InPhase(s, r, phase) && s.runs[r].instance == j + 1 && s.runs[r].n == n && s.runs[r].nodes == nodes
    && s.runs[r].newV == newV
  }

  /** The prepare loop has come to position k: it has counted the good nodes it met, and only good ones; none of them
      has reported a value when none has one. */
  ghost predicate Prepared(s: State, r: nat, j: nat, n: Prop, nodes: seq<string>, newV: string, good: seq<string>,
        quiet: bool)
  {
    && RunOf(s, r, Preparing, j, n, nodes, newV) && s.runs[r].k <= |nodes| && s.runs[r].voters == []
    && (forall a {:trigger a in s.runs[r].prep.accepts} :: a in s.runs[r].prep.accepts ==> a in good)
    && (forall a :: a in good ==> Takes(s, a, j, n, a in s.runs[r].prep.accepts))
    && (forall i :: 0 <= i < s.runs[r].k && nodes[i] in good ==> nodes[i] in s.runs[r].prep.accepts)
    && (quiet ==> s.runs[r].prep.v == "" && forall a :: a in good ==> s.acc[a].vA == "")
  }

  lemma PrepareTurn(s: State, r: nat, j: nat, n: Prop, nodes: seq<string>, newV: string, good: seq<string>, quiet: bool)
    returns (t: State)
    requires Tidy(s) && Prepared(s, r, j, n, nodes, newV, good, quiet) && s.runs[r].k < |nodes|
    ensures Reaches(s, t) && Tidy(t) && Prepared(t, r, j, n, nodes, newV, good, quiet)
    ensures t.runs[r].k == s.runs[r].k + 1
  {
    hide Reaches, Tidy, Gt;
    var a := nodes[s.runs[r].k];
    if a in good && a !in s.runs[r].prep.accepts {
      assert Takes(s, a, j, n, false);
      t := Promise(s, r);
      assert t.runs[r].prep.accepts == s.runs[r].prep.accepts + [a];
      forall b | b in good
        ensures Takes(t, b, j, n, b in t.runs[r].prep.accepts)
      {
        assert Takes(s, b, j, n, b in s.runs[r].prep.accepts);
      }
    } else {
      t := Do(s, SkipPrepare(r));
      forall b | b in good
        ensures Takes(t, b, j, n, b in t.runs[r].prep.accepts)
      {
        assert Takes(s, b, j, n, b in s.runs[r].prep.accepts);
      }
    }
  }

  lemma {:induction false} PrepareLoop(s: State, r: nat, j: nat, n: Prop, nodes: seq<string>, newV: string,
        good: seq<string>, quiet: bool)
    returns (t: State)
    requires Tidy(s) && Prepared(s, r, j, n, nodes, newV, good, quiet)
    ensures Reaches(s, t) && Tidy(t) && Prepared(t, r, j, n, nodes, newV, good, quiet) && t.runs[r].k == |nodes|
    decreases |nodes| - s.runs[r].k
  {
    hide Reaches, Tidy;
    if s.runs[r].k == |nodes| {
      t := s;
      Stay(s);
    } else {
      var u := PrepareTurn(s, r, j, n, nodes, newV, good, quiet);
      t := PrepareLoop(u, r, j, n, nodes, newV, good, quiet);
      Trans(s, u, t);
    }
  }

  /** The accept loop: all promisers so far have voted. */
  ghost predicate Voted(s: State, r: nat, j: nat, n: Prop, nodes: seq<string>, newV: string, v: string,
        take: seq<string>)
  {
    && RunOf(s, r, Accepting, j, n, nodes, newV) && s.runs[r].v == v && s.runs[r].prep.accepts == take
    && s.runs[r].k <= |take| && s.runs[r].voters == take[..s.runs[r].k]
    && (forall a :: a in take ==> Takes(s, a, j, n, true))
  }

  lemma {:induction false} AcceptLoop(s: State, r: nat, j: nat, n: Prop, nodes: seq<string>, newV: string, v: string,
        take: seq<string>)
    returns (t: State)
    requires Tidy(s) && Voted(s, r, j, n, nodes, newV, v, take)
    ensures Reaches(s, t) && Tidy(t) && Voted(t, r, j, n, nodes, newV, v, take) && t.runs[r].k == |take|
    decreases |take| - s.runs[r].k
  {
    hide Reaches, Tidy, Gt;
    var k := s.runs[r].k;
    if k == |take| {
      t := s;
      Stay(s);
    } else {
      assert Takes(s, take[k], j, n, true);
      var u := Vote(s, r);
      assert take[..k + 1] == take[..k] + [take[k]];
      forall b | b in take
        ensures Takes(u, b, j, n, true)
      {
        assert Takes(s, b, j, n, true);
      }
      t := AcceptLoop(u, r, j, n, nodes, newV, v, take);
      Trans(s, u, t);
    }
  }

  /** The decide loop: the voters so far have the new view, the others have it or can take it. */
  ghost predicate Told(s: State, r: nat, j: nat, v: string, take: seq<string>) {
    && InPhase(s, r, Deciding) && s.runs[r].instance == j + 1 && s.runs[r].v == v && s.runs[r].voters == take
    && s.runs[r].k <= |take|
    && (forall a :: a in take ==> a in s.acc && (s.acc[a].instanceH == j || Has(s, a, j + 1, v)))
    && (forall i :: 0 <= i < s.runs[r].k ==> Has(s, take[i], j + 1, v))
  }

  lemma {:induction false} DecideLoop(s: State, r: nat, j: nat, v: string, take: seq<string>) returns (t: State)
    requires Tidy(s) && Told(s, r, j, v, take)
    ensures Reaches(s, t) && Tidy(t) && Told(t, r, j, v, take) && t.runs[r].k == |take|
    decreases |take| - s.runs[r].k
  {
    hide Reaches, Tidy;
    var k := s.runs[r].k;
    if k == |take| {
      t := s;
      Stay(s);
    } else {
      assert take[k] in take;
      var u := Learns(s, r);
      t := DecideLoop(u, r, j, v, take);
      Trans(s, u, t);
    }
  }

  /** A run whose number is above all promises of the good nodes goes through, when these are a majority. */
  lemma RunSucceeds(s: State, r: nat, j: nat, n: Prop, nodes: seq<string>, newV: string, good: seq<string>, quiet: bool)
    returns (t: State, v: string)
    requires Tidy(s) && Prepared(s, r, j, n, nodes, newV, good, quiet) && Majority(nodes, good) && newV != ""
    ensures Reaches(s, t) && v != "" && (quiet ==> v == newV)
    ensures forall a :: a in nodes && a in good ==> Has(t, a, j + 1, v)
  {
    hide Reaches, Tidy, Majority;
    var u := PrepareLoop(s, r, j, n, nodes, newV, good, quiet);
    var take := u.runs[r].prep.accepts;
    GoodAreMajority(nodes, good, take);
    v := if u.runs[r].prep.v == "" then newV else u.runs[r].prep.v;
    var w := Do(u, EndPrepare(r));
    assert Voted(w, r, j, n, nodes, newV, v, take);
    var x := AcceptLoop(w, r, j, n, nodes, newV, v, take);
    assert take[..|take|] == take;
    var y := Do(x, EndAccept(r));
    assert forall a :: a in take ==> Takes(x, a, j, n, true);
    t := DecideLoop(y, r, j, v, take);
    Trans(s, u, w);
    Trans(s, w, x);
    Trans(s, x, y);
    Trans(s, y, t);
  }

  lemma GoodAreMajority(nodes: seq<string>, good: seq<string>, take: seq<string>)
    requires Majority(nodes, good) && forall i :: 0 <= i < |nodes| && nodes[i] in good ==> nodes[i] in take
    ensures Majority(nodes, take)
  {
    MajorityExactlyWhen(nodes, good);
    MajorityExactlyWhen(nodes, take);
    Larger(Positions(nodes, good), Positions(nodes, take));
  }

  lemma {:induction false} Larger(a: set<nat>, b: set<nat>)
    requires a <= b
    ensures |a| <= |b|
    decreases |a|
  {
    if a != {} {
      var x :| x in a;
      Larger(a - {x}, b - {x});
    }
  }

  /** The good nodes have the latest view of p, and all of them are nodes of the system. */
  ghost predicate UpToDate(s: State, p: string, good: seq<string>) {
    p in s.acc && forall a :: a in good ==> a in s.acc && s.acc[a].instanceH == s.acc[p].instanceH
  }

  function LatestView(s: State, p: string): seq<string>
    requires p in s.acc
  {
    Members(ValueOf(s.acc[p].values, s.acc[p].instanceH))
  }

  /** None of the good nodes has accepted a value for the next view. */
  ghost predicate Quiet(s: State, good: seq<string>)
    requires forall a :: a in good ==> a in s.acc
  {
    forall a :: a in good ==> s.acc[a].vA == ""
  }

  /** In t all the good members of p's latest view in s have v as the next one. */
  ghost predicate Follows(s: State, t: State, p: string, good: seq<string>, v: string)
    requires p in s.acc
  {
    Reaches(s, t) && forall a :: a in LatestView(s, p) && a in good ==> Has(t, a, s.acc[p].instanceH + 1, v)
  }

  /** A run with a number above all promises of the good nodes can be started. */
  lemma StartsAbove(s: State, p: string, good: seq<string>, newV: string) returns (t: State, r: nat)
    requires Tidy(s) && UpToDate(s, p, good) && newV != ""
    ensures Reaches(s, t) && Tidy(t) && r in t.runs
    ensures Prepared(t, r, s.acc[p].instanceH, t.runs[r].n, LatestView(s, p), newV, good, Quiet(s, good))
  {
    hide Reaches, Tidy;
    PropOfNode(s, p);
    var j := s.acc[p].instanceH;
    var ready := BecomesReady(s, p);
    var bound := PromisesAreBounded(s, good);
    var high := Raises(ready, p, j + 1, newV, bound);
    r := FreshRun(high.runs.Keys);
    t := Do(high, Start(p, r, j + 1, newV));
    forall a | a in good
      ensures Takes(t, a, j, t.runs[r].n, false)
    {
    }
    Trans(s, ready, high);
    Trans(s, high, t);
  }

  /** Nothing that has happened keeps a next view from being decided: whatever numbers were promised, whatever is
      under way and whatever is lost, if a majority of p's latest view has that view, then steps that meet the
      hypothesis on delays bring a next view to all of that majority. It is the proposed one unless one of them had
      accepted another. */
  lemma NextViewCanBeDecided(s0: State, steps: seq<Step>, s: State, p: string, good: seq<string>, newV: string)
    requires Init(s0) && AnyRun(s0, steps, s) && UpToDate(s, p, good) && newV != ""
    requires Majority(LatestView(s, p), good)
    ensures exists t, v :: Follows(s, t, p, good, v) && v != "" && (Quiet(s, good) ==> v == newV)
  {
    hide Reaches, Tidy, Majority, Members;
    TidyInEveryRun(s0, steps, s);
    var j := s.acc[p].instanceH;
    var u, r := StartsAbove(s, p, good, newV);
    var t, v := RunSucceeds(u, r, j, u.runs[r].n, LatestView(s, p), newV, good, Quiet(s, good));
    Trans(s, u, t);
    assert Follows(s, t, p, good, v);
  }

  lemma TidyInEveryRun(s0: State, steps: seq<Step>, s: State)
    requires Init(s0) && AnyRun(s0, steps, s)
    ensures Tidy(s)
  {
    assert Tidy(s0);
    RunsTidy(s0, steps, s);
  }

  lemma PropOfNode(s: State, p: string)
    requires Tidy(s) && p in s.acc
    ensures p in s.prop
  {
  }

  // ---- what nothing prevents ----

  /** Messages stay, and a request on the network can be handled at any time and any number of times; it meets the
      hypothesis on delays exactly when the acceptor has decided the instance before. A node can crash and restart,
      or hand out its log, at any time. */
  lemma NetworkAndCrashesAreFree(s: State, st: Step, r: nat, a: string, used: nat)
    requires Tidy(s) && r in s.runs && a in s.acc
    ensures Enabled(s, st) ==> s.net <= Apply(s, st).net
    ensures var caughtUp := s.runs[r].instance <= s.acc[a].instanceH + 1;
            && (PrepareReq(r, a) in s.net ==>
                  Enabled(s, HandlePrepare(r, a)) && (NoLag(s, HandlePrepare(r, a)) <==> caughtUp))
            && (AcceptReq(r, a) in s.net ==>
                  Enabled(s, HandleAccept(r, a)) && (NoLag(s, HandleAccept(r, a)) <==> caughtUp))
            && (DecideReq(r, a) in s.net ==>
                  Enabled(s, HandleDecide(r, a)) && (NoLag(s, HandleDecide(r, a)) <==> caughtUp))
    ensures Enabled(s, Crash(a, used)) && NoLag(s, Crash(a, used)) && Enabled(s, Dump(a)) && NoLag(s, Dump(a))
  {
    hide Prepare, Accept, Commit, Restart, Replay, Majority, PrepareOne, NextCounter, InLoop;
  }
}
