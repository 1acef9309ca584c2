/** Many nodes that follow one history of views, each with its own idea of the primary. Recording a view, telling the
    config, reading the views and choosing the primary happen under different mutexes, and so are different steps. */
module PrimarySystem {
  import opened PrimarySpec

  datatype Node = Node(
    primary: string,
    log: nat,               // highest view in the log
    upcalls: set<nat>,      // recorded views the config has not been told of
    vid: nat,               // the config's view number
    due: nat,               // calls of commit_change that wait for the rsm mutex
    reading: nat,           // the current view read by the call that has it, 0 when no call has
    chosen: nat)            // the view the primary was last chosen for

  datatype Msg =
    | JoinReq(q: string, m: string)
    | LogDump(q: string, m: string, v: nat)   // q's answer to m, with the views up to v

  /** views[k] is view k; there is no view 0. */
  datatype State = State(first: string, views: seq<seq<string>>, nodes: map<string, Node>, net: set<Msg>)

  datatype Step =
    | Record(a: string)                        // commit_wo, up to where it releases the mutex
    | Upcall(a: string, i: nat)                // paxos_commit, up to where it releases the mutex
    | Read(a: string)                          // set_primary reads the current view
    | Choose(a: string)                        // it reads the previous view and chooses
    | Request(m: string)                       // m asks its own primary to join
    | Answer(q: string, m: string)             // q answers with its log
    | Load(q: string, m: string, v: nat)       // restore, which makes no upcall
    | Restart(a: string)                       // the constructor forgets the primary; the log is kept

  /** A node on which nothing is going on, with primary p and the views up to k. */
  function Settled(p: string, k: nat): Node {
    Node(p, k, {}, k, 0, 0, k)
  }

  ghost predicate Init(s: State) {
    && |s.views| >= 2 && s.views[0] == [] && s.views[1] == [s.first]
    && s.first in s.nodes && "" !in s.nodes && s.net == {}
    && forall a :: a in s.nodes ==> s.nodes[a] == Settled(s.first, if a == s.first then 1 else 0)
  }

  /** A node has views or is idle; and once no call is left, the last choice was made for the view the config has. */
  predicate NodeOk(n: Node, count: nat) {
    && n.log < count && n.vid < count && n.chosen < count && (forall i :: i in n.upcalls ==> 2 <= i < count)
    && n.reading < count
    && (n.log >= 1 <==> n.vid >= 1) && (n.log >= 1 <==> n.chosen >= 1)
    && (n.log == 0 ==> n.upcalls == {} && n.due == 0 && n.reading == 0)
    && (n.due == 0 ==> n.vid == if n.reading > 0 then n.reading else n.chosen)
  }

  predicate WellFormed(s: State) {
    && |s.views| >= 2 && s.views[1] == [s.first] && "" !in s.nodes
    && (forall a :: a in s.nodes ==> NodeOk(s.nodes[a], |s.views|))
    && forall x :: x in s.net && x.LogDump? ==> 1 <= x.v < |s.views|
  }

  predicate Enabled(s: State, st: Step)
    requires WellFormed(s)
  {
    match st
    case Record(a) => a in s.nodes && 1 <= s.nodes[a].log < |s.views| - 1
    case Upcall(a, i) => a in s.nodes && i in s.nodes[a].upcalls
    case Read(a) => a in s.nodes && s.nodes[a].due > 0 && s.nodes[a].reading == 0
    case Choose(a) =>
      a in s.nodes && s.nodes[a].reading > 0 && s.nodes[a].vid >= 1
      && CanChoose(s.nodes[a].primary, s.views[s.nodes[a].reading], s.views[s.nodes[a].vid - 1])
    case Request(m) => m in s.nodes && s.nodes[m].reading == 0 && m !in s.views[s.nodes[m].vid]
    case Answer(q, m) =>
      && q in s.nodes && JoinReq(q, m) in s.net && s.nodes[q].reading == 0 && s.nodes[q].log >= 1
      && (m in s.views[s.nodes[q].vid] || s.nodes[q].primary == q)
    case Load(q, m, v) => m in s.nodes && LogDump(q, m, v) in s.net && s.nodes[m].reading == 0
    case Restart(a) => a in s.nodes
  }

  function With(s: State, a: string, n: Node): State {
    s.(nodes := s.nodes[a := n])
  }

  function Apply(s: State, st: Step): State
    requires WellFormed(s) && Enabled(s, st)
  {
    match st
    case Record(a) =>
      var n := s.nodes[a];
      With(s, a, n.(log := n.log + 1, upcalls := n.upcalls + {n.log + 1}))
    case Upcall(a, i) =>
      var n := s.nodes[a];
      With(s, a, n.(upcalls := n.upcalls - {i}, vid := i, due := n.due + 1))
    case Read(a) =>
      var n := s.nodes[a];
      With(s, a, n.(due := n.due - 1, reading := n.vid))
    case Choose(a) =>
      var n := s.nodes[a];
      With(s, a, n.(primary := NextPrimary(n.primary, s.views[n.reading], s.views[n.vid - 1]),
                    reading := 0, chosen := n.reading))
    case Request(m) => s.(net := s.net + {JoinReq(s.nodes[m].primary, m)})
    case Answer(q, m) => s.(net := s.net + {LogDump(q, m, s.nodes[q].log)})
    case Load(q, m, v) => With(s, m, s.nodes[m].(log := v, vid := v, chosen := v))
    case Restart(a) => With(s, a, Settled(s.first, s.nodes[a].log))
  }

  ghost predicate Runs(s: State, steps: seq<Step>, t: State)
    decreases |steps|
  {
    if |steps| == 0 then s == t
    else WellFormed(s) && Enabled(s, steps[0]) && Runs(Apply(s, steps[0]), steps[1..], t)
  }

  lemma WellFormedKept(s: State, st: Step)
    requires WellFormed(s) && Enabled(s, st)
    ensures WellFormed(Apply(s, st))
  {
    hide NextPrimary, CanChoose;
  }

  // ---- agreement ----

  /** The primary of view k for a node that chooses once for every view, in order. */
  function Canonical(s: State, k: nat): string
    requires WellFormed(s) && 1 <= k < |s.views|
  {
    PrimaryFrom(s.first, s.views, 1, k)
  }

  predicate NodeAgrees(s: State, n: Node)
    requires WellFormed(s) && NodeOk(n, |s.views|)
  {
    n.log >= 1 ==> n.primary == Canonical(s, n.chosen)
  }

  /** Every node has the primary of the view it last chose for, and every log under way comes from the primary of its
      last view. */
  ghost predicate Agree(s: State) {
    && WellFormed(s)
    && (forall a {:trigger s.nodes[a]} :: a in s.nodes ==> NodeAgrees(s, s.nodes[a]))
    && forall x :: x in s.net && x.LogDump? ==> x.q == Canonical(s, x.v)
  }

  /** The primary a node comes to by the last view in its log. */
  function Heading(s: State, a: string): string
    requires WellFormed(s) && a in s.nodes && s.nodes[a].log >= 1
  {
    var n := s.nodes[a];
    if n.chosen <= n.log then PrimaryFrom(n.primary, s.views, n.chosen, n.log) else Canonical(s, n.log)
  }

  /** A choice must come out as from the primary of the view before, a log is handed out by the primary it leads to, the
      joiner still has the primary it asked, and a node restarts only while its log leads to the first node. */
  predicate Orderly(s: State, st: Step)
    requires WellFormed(s) && Enabled(s, st)
  {
    match st
    case Choose(a) =>
      var n, c := s.nodes[a], s.nodes[a].reading;
      c == 1 || MeetFrom(n.primary, s.views[n.vid - 1], Canonical(s, c - 1), s.views[c - 1], s.views[c])
    case Answer(q, _) => Heading(s, q) == q
    case Load(q, m, _) => s.nodes[m].primary == q
    case Restart(a) => s.nodes[a].log == 0 || Heading(s, a) == s.first
    case _ => true
  }

  lemma HeadingIsCanonical(s: State, a: string)
    requires Agree(s) && a in s.nodes && s.nodes[a].log >= 1
    ensures Heading(s, a) == Canonical(s, s.nodes[a].log)
  {
    var n := s.nodes[a];
    if n.chosen <= n.log {
      PrimaryFromPart(s.first, s.views, 1, n.chosen, n.log);
    }
  }

  lemma ChoiceAgreesExactlyWhenOrderly(s: State, a: string)
    requires Agree(s) && Enabled(s, Choose(a))
    ensures var n := s.nodes[a];
            Orderly(s, Choose(a)) <==>
            NextPrimary(n.primary, s.views[n.reading], s.views[n.vid - 1]) == Canonical(s, n.reading)
  {
    var n, c := s.nodes[a], s.nodes[a].reading;
    if c == 1 {
      FirstInIs(s.views[n.vid - 1], s.views[1]);
    } else {
      ChoicesAgreeExactlyWhen(n.primary, s.views[n.vid - 1], Canonical(s, c - 1), s.views[c - 1], s.views[c]);
    }
  }

  /** Changing one node. */
  lemma WithAgreesExactlyWhen(s: State, a: string, n: Node)
    requires Agree(s) && a in s.nodes && NodeOk(n, |s.views|)
    ensures Agree(With(s, a, n)) <==> (n.log >= 1 ==> n.primary == Canonical(s, n.chosen))
  {
    var t := With(s, a, n);
    assert WellFormed(t);
    assert forall k :: 1 <= k < |s.views| ==> Canonical(t, k) == Canonical(s, k);
    forall b | b in t.nodes && b != a
      ensures NodeAgrees(t, t.nodes[b])
    {
      assert NodeAgrees(s, s.nodes[b]);
    }
    if Agree(t) {
      assert NodeAgrees(t, t.nodes[a]);
    }
  }

  /** Sending one message. */
  lemma SendAgreesExactlyWhen(s: State, x: Msg)
    requires Agree(s) && (x.LogDump? ==> 1 <= x.v < |s.views|)
    ensures Agree(s.(net := s.net + {x})) <==> (x.LogDump? ==> x.q == Canonical(s, x.v))
  {
    var t := s.(net := s.net + {x});
    assert WellFormed(t);
    assert forall k :: 1 <= k < |s.views| ==> Canonical(t, k) == Canonical(s, k);
    forall b | b in t.nodes
      ensures NodeAgrees(t, t.nodes[b])
    {
      assert NodeAgrees(s, s.nodes[b]);
    }
    assert x in t.net;
  }

  /** A step keeps the nodes in agreement if and only if it is orderly. */
  lemma StepKeepsAgreementExactlyWhenOrderly(s: State, st: Step)
    requires Agree(s) && Enabled(s, st)
    ensures Agree(Apply(s, st)) <==> Orderly(s, st)
  {
    hide Agree, MeetFrom, NextPrimary, PrimaryFrom, CanChoose;
    AgreeMeans(s);
    WellFormedKept(s, st);
    match st {
      case Request(m) => SendAgreesExactlyWhen(s, JoinReq(s.nodes[m].primary, m));
      case Answer(q, m) =>
        HeadingIsCanonical(s, q);
        SendAgreesExactlyWhen(s, LogDump(q, m, s.nodes[q].log));
      case Choose(a) =>
        ChoiceAgreesExactlyWhenOrderly(s, a);
        WithAgreesExactlyWhen(s, a, Apply(s, st).nodes[a]);
      case Load(q, m, v) =>
        DumpAgrees(s, q, m, v);
        WithAgreesExactlyWhen(s, m, Apply(s, st).nodes[m]);
      case Restart(a) =>
        if s.nodes[a].log >= 1 {
          HeadingIsCanonical(s, a);
        }
        WithAgreesExactlyWhen(s, a, Apply(s, st).nodes[a]);
      case _ =>
        assert NodeAgrees(s, s.nodes[st.a]);
        WithAgreesExactlyWhen(s, st.a, Apply(s, st).nodes[st.a]);
    }
  }

  lemma AgreeMeans(s: State)
    requires Agree(s)
    ensures WellFormed(s) && forall a :: a in s.nodes ==> NodeAgrees(s, s.nodes[a])
  {
  }

  lemma DumpAgrees(s: State, q: string, m: string, v: nat)
    requires Agree(s) && LogDump(q, m, v) in s.net
    ensures 1 <= v < |s.views| && q == Canonical(s, v)
  {
  }

  // ---- which choices are orderly ----

  /** A choice for the next view, with nothing recorded by the config in between, is orderly. */
  lemma InOrderChoiceIsOrderly(s: State, a: string)
    requires Agree(s) && Enabled(s, Choose(a)) && s.nodes[a].log >= 1
    requires s.nodes[a].reading == s.nodes[a].chosen + 1 && s.nodes[a].vid == s.nodes[a].chosen + 1
    ensures Orderly(s, Choose(a))
  {
    assert NodeAgrees(s, s.nodes[a]);
    ChoiceAgreesExactlyWhenOrderly(s, a);
  }

  /** So is a second choice for the same view, whatever the previous view read. */
  lemma RepeatedChoiceIsOrderly(s: State, a: string)
    requires Agree(s) && Enabled(s, Choose(a)) && s.nodes[a].log >= 1 && s.nodes[a].primary != ""
    requires s.nodes[a].reading == s.nodes[a].chosen
    ensures Orderly(s, Choose(a))
  {
    assert NodeAgrees(s, s.nodes[a]);
    NamedPrimaryIsAMember(s.first, s.views, 1, s.nodes[a].chosen);
    ChoiceAgreesExactlyWhenOrderly(s, a);
  }

  /** A choice that follows the one for view j directly and leaves out the views between is orderly if and only if the
      primary of view j and that of the view before are the same or meet. */
  lemma SkippingChoiceIsOrderlyExactlyWhen(s: State, a: string, j: nat, c: nat)
    requires Agree(s) && Enabled(s, Choose(a)) && 1 <= j && 2 <= c && s.nodes[a].log >= 1
    requires s.nodes[a].chosen == j && s.nodes[a].reading == c && s.nodes[a].vid == c
    ensures c - 1 < |s.views| && j < |s.views|
    ensures Orderly(s, Choose(a)) <==>
            Canonical(s, j) == Canonical(s, c - 1)
            || Meet(Canonical(s, j), Canonical(s, c - 1), s.views[c], s.views[c - 1])
  {
    assert NodeAgrees(s, s.nodes[a]);
    ChoicesAgreeExactlyWhen(Canonical(s, j), s.views[c - 1], Canonical(s, c - 1), s.views[c - 1], s.views[c]);
  }

  // ---- runs ----

  ghost predicate OrderlyRun(s: State, steps: seq<Step>)
    decreases |steps|
  {
    |steps| > 0 ==>
      WellFormed(s) && Enabled(s, steps[0]) && Orderly(s, steps[0]) && OrderlyRun(Apply(s, steps[0]), steps[1..])
  }

  /** The nodes agree in every state of the run. */
  ghost predicate AgreeThroughout(s: State, steps: seq<Step>)
    decreases |steps|
  {
    Agree(s) && (|steps| > 0 ==> Enabled(s, steps[0]) && AgreeThroughout(Apply(s, steps[0]), steps[1..]))
  }

  /** The nodes agree in every state of a run if and only if every step of it is orderly. */
  lemma {:induction false} RunsAgreeExactlyWhenOrderly(s: State, steps: seq<Step>, t: State)
    requires Agree(s) && Runs(s, steps, t)
    ensures AgreeThroughout(s, steps) <==> OrderlyRun(s, steps)
    ensures OrderlyRun(s, steps) ==> Agree(t) && t.first == s.first && t.views == s.views
    decreases |steps|
  {
    hide Agree, Orderly;
    if |steps| > 0 {
      var u := Apply(s, steps[0]);
      StepKeepsAgreementExactlyWhenOrderly(s, steps[0]);
      if Agree(u) {
        RunsAgreeExactlyWhenOrderly(u, steps[1..], t);
      }
    }
  }

  lemma InitAgrees(s: State)
    requires Init(s)
    ensures Agree(s)
  {
  }

  predicate Idle(n: Node) {
    n.due == 0 && n.reading == 0
  }

  /** In every orderly run of any number of nodes, nodes whose config has the same view, and which have no choice under
      way, have the same primary; and it is a member of that view whenever it has a name. */
  lemma NodesAgreeOnThePrimary(s0: State, steps: seq<Step>, s: State, a: string, b: string)
    requires Init(s0) && Runs(s0, steps, s) && OrderlyRun(s0, steps) && a in s.nodes && b in s.nodes
    requires Idle(s.nodes[a]) && Idle(s.nodes[b]) && s.nodes[a].vid == s.nodes[b].vid >= 1
    ensures s.nodes[a].primary == s.nodes[b].primary
    ensures WellFormed(s) && (s.nodes[a].primary != "" ==> s.nodes[a].primary in s.views[s.nodes[a].vid])
  {
    InitAgrees(s0);
    RunsAgreeExactlyWhenOrderly(s0, steps, s);
    assert NodeAgrees(s, s.nodes[a]) && NodeAgrees(s, s.nodes[b]);
    if s.nodes[a].primary != "" {
      NamedPrimaryIsAMember(s.first, s.views, 1, s.nodes[a].vid);
    }
  }

  /** A join request served by adding the node is orderly. q serves it only as its own primary, and holds the rsm mutex
      until it has answered, so that the choice for the view with m is still to come; yet the log it hands out leads to
      q again. If m still has q for its primary when it loads the log, it has the primary of that view. */
  lemma AdmissionIsOrderly(s: State, q: string, m: string)
    requires Agree(s) && q in s.nodes && m in s.nodes && q != m && JoinReq(q, m) in s.net
    requires var k := s.nodes[q].log; 1 <= k < |s.views| - 1 && s.views[k + 1] == s.views[k] + [m]
    requires s.nodes[q].chosen == s.nodes[q].log && s.nodes[q].primary == q && s.nodes[q].reading == 0
    requires s.nodes[m].primary == q && s.nodes[m].reading == 0
    ensures var k := s.nodes[q].log;
            var t := Apply(s, Record(q));
            && Enabled(t, Answer(q, m)) && Orderly(t, Answer(q, m))
            && var u := Apply(t, Answer(q, m));
               && Agree(u) && Enabled(u, Load(q, m, k + 1)) && Orderly(u, Load(q, m, k + 1))
               && Agree(Apply(u, Load(q, m, k + 1)))
  {
    hide Agree;
    var k := s.nodes[q].log;
    AgreeMeans(s);
    NamedPrimaryIsAMember(s.first, s.views, 1, k);
    assert q in s.views[k + 1];
    var t := Apply(s, Record(q));
    StepKeepsAgreementExactlyWhenOrderly(s, Record(q));
    AgreeMeans(t);
    assert PrimaryFrom(q, s.views, k, k) == q;
    var u := Apply(t, Answer(q, m));
    StepKeepsAgreementExactlyWhenOrderly(t, Answer(q, m));
    AgreeMeans(u);
    StepKeepsAgreementExactlyWhenOrderly(u, Load(q, m, k + 1));
  }

  /** A node that restarts in view m while the others agree has their primary again in view k, after choosing for the
      views up to k in order, if and only if the first node was the primary of view m or the two have met since. */
  lemma RestartedNodeAgreesExactlyWhen(s: State, m: nat, k: nat)
    requires WellFormed(s) && 1 <= m <= k < |s.views|
    ensures PrimaryFrom(s.first, s.views, m, k) == Canonical(s, k) <==>
            s.first == Canonical(s, m) || HaveMet(s.first, Canonical(s, m), s.views, m, k)
  {
    PrimaryFromPart(s.first, s.views, 1, m, k);
    PrimariesAgreeExactlyWhen(s.first, Canonical(s, m), s.views, m, k);
  }

  // ---- three runs that split the primaries ----

  ghost predicate Reaches(s: State, t: State) {
    exists steps :: Runs(s, steps, t)
  }

  lemma {:induction false} RunsJoin(s: State, xs: seq<Step>, t: State, ys: seq<Step>, u: State)
    requires Runs(s, xs, t) && Runs(t, ys, u)
    ensures Runs(s, xs + ys, u)
    decreases |xs|
  {
    hide WellFormed, Enabled, Apply;
    if |xs| == 0 {
      assert xs + ys == ys;
    } else {
      RunsJoin(Apply(s, xs[0]), xs[1..], t, ys, u);
      assert (xs + ys)[1..] == xs[1..] + ys;
    }
  }

  lemma Then(s: State, t: State, u: State)
    requires Reaches(s, t) && Reaches(t, u)
    ensures Reaches(s, u)
  {
    var xs :| Runs(s, xs, t);
    var ys :| Runs(t, ys, u);
    RunsJoin(s, xs, t, ys, u);
  }

  lemma One(s: State, st: Step) returns (t: State)
    requires WellFormed(s) && Enabled(s, st)
    ensures Reaches(s, t) && t == Apply(s, st) && WellFormed(t)
  {
    t := Apply(s, st);
    WellFormedKept(s, st);
    assert [st][1..] == [];
    assert Runs(s, [st], t);
  }

  /** Node a records the next view and chooses for it. */
  lemma Follow(s: State, a: string) returns (t: State)
    requires WellFormed(s) && a in s.nodes && 1 <= s.nodes[a].log < |s.views| - 1
    requires var n := s.nodes[a];
             n == Settled(n.primary, n.log) && CanChoose(n.primary, s.views[n.log + 1], s.views[n.log])
    ensures Reaches(s, t) && WellFormed(t)
    ensures var n := s.nodes[a];
            t == With(s, a, Settled(NextPrimary(n.primary, s.views[n.log + 1], s.views[n.log]), n.log + 1))
  {
    hide Reaches, WellFormed, NextPrimary, CanChoose;
    var n := s.nodes[a];
    var u := One(s, Record(a));
    assert u.nodes[a].upcalls == {n.log + 1};
    var w := One(u, Upcall(a, n.log + 1));
    assert w.nodes[a].upcalls == {};
    var x := One(w, Read(a));
    t := One(x, Choose(a));
    Then(s, u, w);
    Then(s, w, x);
    Then(s, x, t);
  }

  /** Node a records the next two views, but its config has both before the first choice is made, and a's primary is a
      member of the second one. */
  lemma FollowLate(s: State, a: string) returns (t: State)
    requires WellFormed(s) && a in s.nodes && 1 <= s.nodes[a].log < |s.views| - 2
    requires var n := s.nodes[a]; n == Settled(n.primary, n.log) && n.primary in s.views[n.log + 2]
    ensures Reaches(s, t) && WellFormed(t) && t == With(s, a, Settled(s.nodes[a].primary, s.nodes[a].log + 2))
  {
    hide Reaches, WellFormed;
    var n := s.nodes[a];
    var i, j := n.log + 1, n.log + 2;
    var x1 := One(s, Record(a));
    var x2 := One(x1, Record(a));
    var x3 := One(x2, Upcall(a, i));
    var x4 := One(x3, Upcall(a, j));
    assert x4.nodes[a].upcalls == {};
    var x5 := One(x4, Read(a));
    var x6 := One(x5, Choose(a));
    var x7 := One(x6, Read(a));
    t := One(x7, Choose(a));
    Then(s, x1, x2);
    Then(s, x2, x3);
    Then(s, x3, x4);
    Then(s, x4, x5);
    Then(s, x5, x6);
    Then(s, x6, x7);
    Then(s, x7, t);
  }

  /** Node m asks its primary q, which answers, and loads the log. */
  lemma Join(s: State, q: string, m: string) returns (t: State)
    requires WellFormed(s) && q in s.nodes && m in s.nodes && s.nodes[q].log >= 1
    requires var n, o := s.nodes[q], s.nodes[m];
             && n == Settled(n.primary, n.log) && o == Settled(q, o.log)
             && m !in s.views[o.log] && (m in s.views[n.log] || n.primary == q)
    ensures Reaches(s, t) && WellFormed(t) && t == With(s, m, Settled(q, s.nodes[q].log)).(net := t.net)
  {
    hide Reaches, WellFormed;
    var u := One(s, Request(m));
    var w := One(u, Answer(q, m));
    t := One(w, Load(q, m, s.nodes[q].log));
    Then(s, u, w);
    Then(s, w, t);
  }

  /** Three nodes in a system that starts from node 1. */
  ghost predicate Example(s: State, views: seq<seq<string>>, n1: Node, n2: Node, n3: Node) {
    WellFormed(s) && s.first == "1" && s.views == views && s.nodes == map["1" := n1, "2" := n2, "3" := n3]
  }

  lemma Start(views: seq<seq<string>>) returns (s: State)
    requires |views| >= 2 && views[0] == [] && views[1] == ["1"]
    ensures Init(s) && Example(s, views, Settled("1", 1), Settled("1", 0), Settled("1", 0))
  {
    s := State("1", views, map["1" := Settled("1", 1), "2" := Settled("1", 0), "3" := Settled("1", 0)], {});
  }

  /** Two members of the last view have chosen different primaries for it; listed says that these are members too. */
  ghost predicate Split(s: State, listed: bool) {
    |s.views| > 0 && exists a, b :: SplitBetween(s, a, b, listed)
  }

  ghost predicate SplitBetween(s: State, a: string, b: string, listed: bool)
    requires |s.views| > 0
  {
    var k := |s.views| - 1;
    && a in s.nodes && b in s.nodes && a in s.views[k] && b in s.views[k]
    && s.nodes[a] == Settled(s.nodes[a].primary, k) && s.nodes[b] == Settled(s.nodes[b].primary, k)
    && s.nodes[a].primary != s.nodes[b].primary
    && (listed ==> s.nodes[a].primary in s.views[k] && s.nodes[b].primary in s.views[k])
  }

  /** The choices of the examples. */
  lemma ExampleChoices()
    ensures NextPrimary("1", ["1", "2"], ["1"]) == "1" && CanChoose("1", ["1", "2"], ["1"])
    ensures NextPrimary("1", ["2"], ["1", "2"]) == "2" && CanChoose("1", ["2"], ["1", "2"])
    ensures NextPrimary("2", ["2", "1"], ["2"]) == "2" && CanChoose("2", ["2", "1"], ["2"])
    ensures NextPrimary("1", ["1", "2", "3"], ["1", "2"]) == "1" && CanChoose("1", ["1", "2", "3"], ["1", "2"])
    ensures NextPrimary("1", ["2", "3"], ["1", "2", "3"]) == "2" && CanChoose("1", ["2", "3"], ["1", "2", "3"])
    ensures NextPrimary("2", ["2", "3", "1"], ["2", "3"]) == "2" && CanChoose("2", ["2", "3", "1"], ["2", "3"])
  {
    assert FirstIn(["1", "2"], ["2"]) == FirstIn(["1", "2"][1..], ["2"]) == "2";
    assert FirstIn(["1", "2", "3"], ["2", "3"]) == FirstIn(["1", "2", "3"][1..], ["2", "3"]) == "2";
    assert "2" in ["1", "2"] && "2" in ["2"] && "2" in ["1", "2", "3"] && "2" in ["2", "3"];
  }

  /** Nodes 1 and 2 are in view 2 and have node 1 as primary. */
  lemma TwoNodes(views: seq<seq<string>>) returns (s: State, t: State)
    requires |views| >= 3 && views[0] == [] && views[1] == ["1"] && views[2] == ["1", "2"]
    ensures Init(s) && Reaches(s, t) && Example(t, views, Settled("1", 2), Settled("1", 2), Settled("1", 0))
  {
    hide Reaches, WellFormed, Init, NextPrimary, CanChoose;
    ExampleChoices();
    s := Start(views);
    var u := Follow(s, "1");
    t := Join(u, "1", "2");
    Then(s, u, t);
  }

  /** A restart splits the primaries: node 2 becomes the primary when node 1 is removed, node 1 joins again, node 2
      restarts and takes node 1 for the primary. */
  lemma RestartSplitsThePrimaries()
    ensures exists s: State, steps: seq<Step>, t: State :: Init(s) && Runs(s, steps, t) && Split(t, true)
  {
    hide Reaches, WellFormed, Init, NextPrimary, CanChoose, Runs;
    ExampleChoices();
    var s, x0 := TwoNodes([[], ["1"], ["1", "2"], ["2"], ["2", "1"]]);
    var x1 := Follow(x0, "1");
    var x2 := Follow(x1, "2");
    var x3 := Follow(x2, "2");
    var x4 := Join(x3, "2", "1");
    var t := One(x4, Restart("2"));
    assert SplitBetween(t, "1", "2", true);
    Then(s, x0, x1);
    Then(s, x1, x2);
    Then(s, x2, x3);
    Then(s, x3, x4);
    Then(s, x4, t);
    ReachesMeans(s, t);
  }

  lemma ReachesMeans(s: State, t: State)
    requires Reaches(s, t)
    ensures exists steps :: Runs(s, steps, t)
  {
  }

  /** A log handed out to a member by a node that is no longer its own primary splits them: node 3 was added while its
      first request failed, asks node 1 again after node 1 left, and keeps it as its primary. */
  lemma LateAnswerSplitsThePrimaries()
    ensures exists s: State, steps: seq<Step>, t: State :: Init(s) && Runs(s, steps, t) && Split(t, false)
  {
    hide Reaches, WellFormed, Init, NextPrimary, CanChoose, Runs;
    ExampleChoices();
    var s, x0 := TwoNodes([[], ["1"], ["1", "2"], ["1", "2", "3"], ["2", "3"]]);
    var x1 := Follow(x0, "1");
    var x2 := Follow(x1, "2");
    var x3 := Follow(x2, "1");
    var x4 := Follow(x3, "2");
    var t := Join(x4, "1", "3");
    assert SplitBetween(t, "2", "3", false);
    Then(s, x0, x1);
    Then(s, x1, x2);
    Then(s, x2, x3);
    Then(s, x3, x4);
    Then(s, x4, t);
    ReachesMeans(s, t);
  }

  /** A choice that is overtaken splits them, without restarts: node 1 leaves in view 4 and joins again in view 5,
      and node 3's config has view 5 before the choice for view 4 is made. */
  lemma OvertakenChoiceSplitsThePrimaries()
    ensures exists s: State, steps: seq<Step>, t: State :: Init(s) && Runs(s, steps, t) && Split(t, true)
  {
    hide Reaches, WellFormed, Init, NextPrimary, CanChoose, Runs;
    ExampleChoices();
    var s, x0 := TwoNodes([[], ["1"], ["1", "2"], ["1", "2", "3"], ["2", "3"], ["2", "3", "1"]]);
    var x1 := Follow(x0, "1");
    var x2 := Join(x1, "1", "3");
    var x3 := Follow(x2, "2");
    var x4 := Follow(x3, "2");
    var x5 := Follow(x4, "2");
    var t := FollowLate(x5, "3");
    assert SplitBetween(t, "2", "3", true);
    Then(s, x0, x1);
    Then(s, x1, x2);
    Then(s, x2, x3);
    Then(s, x3, x4);
    Then(s, x4, x5);
    Then(s, x5, t);
    ReachesMeans(s, t);
  }
}
