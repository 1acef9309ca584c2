/** Many nodes running Paxos for all instances at once. Every region held under a mutex is one step;
    the network keeps every message forever, so messages may be lost, delayed, duplicated and reordered. */
module PaxosSystem {
  import opened PropNumbers
  import opened AcceptorSpec
  import opened ProposerSpec
  import opened Views

  datatype Phase = Preparing | Accepting | Deciding

  /** One call of `proposer::run`. The first five fields are fixed when the run starts. */
  datatype Run = Run(
    node: string,
    instance: nat,
    n: Prop,              // my_n
    nodes: seq<string>,   // c_nodes
    newV: string,         // c_v
    phase: Phase,
    live: bool,           // false once the run returned or its node died
    k: nat,               // next position of the loop the run is in
    prep: Prep,           // locals of prepare
    v: string,            // the value proposed, from Accepting on
    voters: seq<string>)  // accepts, after the accept loop

  /** The payload of a request is the run's: `preparearg`, `acceptarg` and `decidearg` are read off run r. */
  datatype Msg =
    | PrepareReq(r: nat, to: string)
    | PrepareAns(r: nat, from: string, pres: PrepareRes)
    | AcceptReq(r: nat, to: string)
    | AcceptAns(r: nat, from: string, ares: AcceptRes)
    | DecideReq(r: nat, to: string)
    | LogDump(log: seq<LogRec>)              // the answer to a join request

  /** `used` is my_n.n, which is not durable. */
  datatype Proposer = Proposer(stable: bool, used: nat)

  datatype State = State(
    first: string,
    acc: map<string, AccState>,
    prop: map<string, Proposer>,
    runs: map<nat, Run>,
    net: set<Msg>)

  datatype Step =
    | Start(p: string, r: nat, instance: nat, newV: string)
    | SendPrepare(r: nat)
    | HandlePrepare(r: nat, a: string)
    | RecvPrepare(r: nat, pres: PrepareRes)
    | SkipPrepare(r: nat)                      // the RPC failed
    | EndPrepare(r: nat)
    | SendAccept(r: nat)
    | HandleAccept(r: nat, a: string)
    | RecvAccept(r: nat, ares: AcceptRes)
    | SkipAccept(r: nat)
    | EndAccept(r: nat)
    | SendDecide(r: nat)
    | HandleDecide(r: nat, a: string)
    | EndRun(r: nat)
    | Crash(p: string, used: nat)              // die at any point, breakpoints included, and restart
    | Dump(q: string)                          // q answers a join request with its log
    | Join(p: string, log: seq<LogRec>)        // a node without any view loads a dump, however old

  ghost predicate Init(s: State) {
    && s.first in s.acc && s.first != ""
    && (forall a :: a in s.acc ==> s.acc[a] == Construct(a, a == s.first, a, []))
    && s.prop.Keys == s.acc.Keys && (forall a :: a in s.prop ==> s.prop[a].stable) && s.runs == map[] && s.net == {}
  }

  predicate Enabled(s: State, st: Step) {
    match st
    case Start(p, r, j, newV) =>
      p in s.acc && p in s.prop && s.prop[p].stable && r !in s.runs && newV != "" && 1 <= j <= s.acc[p].instanceH + 1
    case SendPrepare(r) => InPhase(s, r, Preparing) && s.runs[r].k < |s.runs[r].nodes|
    case HandlePrepare(r, a) => PrepareReq(r, a) in s.net && r in s.runs && a in s.acc
    case RecvPrepare(r, res) =>
      && InPhase(s, r, Preparing) && s.runs[r].k < |s.runs[r].nodes|
      && PrepareAns(r, s.runs[r].nodes[s.runs[r].k], res) in s.net
    case SkipPrepare(r) => InPhase(s, r, Preparing) && s.runs[r].k < |s.runs[r].nodes|
    case EndPrepare(r) => InPhase(s, r, Preparing) && s.runs[r].k == |s.runs[r].nodes|
    case SendAccept(r) => InPhase(s, r, Accepting) && s.runs[r].k < |s.runs[r].prep.accepts|
    case HandleAccept(r, a) => AcceptReq(r, a) in s.net && r in s.runs && a in s.acc
    case RecvAccept(r, res) =>
      && InPhase(s, r, Accepting) && s.runs[r].k < |s.runs[r].prep.accepts|
      && AcceptAns(r, s.runs[r].prep.accepts[s.runs[r].k], res) in s.net
    case SkipAccept(r) => InPhase(s, r, Accepting) && s.runs[r].k < |s.runs[r].prep.accepts|
    case EndAccept(r) => InPhase(s, r, Accepting) && s.runs[r].k == |s.runs[r].prep.accepts|
    case SendDecide(r) => InPhase(s, r, Deciding) && s.runs[r].k < |s.runs[r].voters|
    case HandleDecide(r, a) => DecideReq(r, a) in s.net && r in s.runs && a in s.acc
    case EndRun(r) => InPhase(s, r, Deciding) && s.runs[r].k == |s.runs[r].voters|
    case Crash(p, used) => p in s.acc && p in s.prop
    case Dump(q) => q in s.acc
    case Join(p, log) => p in s.acc && LogDump(log) in s.net && s.acc[p].instanceH == 0
  }

  predicate InPhase(s: State, r: nat, phase: Phase) {
    r in s.runs && s.runs[r].live && s.runs[r].phase == phase && s.runs[r].node in s.acc && s.runs[r].node in s.prop
  }

  /** The hypothesis on delays: a request for instance j reaches only acceptors that decided j - 1. */
  predicate NoLag(s: State, st: Step)
    requires Enabled(s, st)
  {
    match st
    case HandlePrepare(r, a) => s.runs[r].instance <= s.acc[a].instanceH + 1
    case HandleAccept(r, a) => s.runs[r].instance <= s.acc[a].instanceH + 1
    case HandleDecide(r, a) => s.runs[r].instance <= s.acc[a].instanceH + 1
    case _ => true
  }

  // ---- the steps' effects ----

  function WithRun(s: State, r: nat, run: Run): State {
    s.(runs := s.runs[r := run])
  }

  function WithMsg(s: State, m: Msg): State {
    s.(net := s.net + {m})
  }

  function WithAcc(s: State, a: string, t: AccState): State {
    s.(acc := s.acc[a := t])
  }

  function WithProp(s: State, p: string, x: Proposer): State {
    s.(prop := s.prop[p := x])
  }

  /** The run returns and its proposer is stable again. */
  function Stop(s: State, r: nat): State
    requires r in s.runs && s.runs[r].node in s.prop
  {
    var p := s.runs[r].node;
    WithProp(WithRun(s, r, s.runs[r].(live := false)), p, s.prop[p].(stable := true))
  }

  function NewRun(s: State, p: string, j: nat, newV: string): Run
    requires p in s.acc && p in s.prop && j >= 1
  {
    Run(p, j, Prop(NextCounter(s.acc[p].nH.n, s.prop[p].used), p), Members(ValueOf(s.acc[p].values, j - 1)),
        newV, Preparing, true, 0, EmptyPrep(), "", [])
  }

  function DoHandlePrepare(s: State, r: nat, a: string): State
    requires r in s.runs && a in s.acc
  {
    var (t, res) := Prepare(s.acc[a], s.runs[r].instance, s.runs[r].n);
    WithMsg(WithAcc(s, a, t), PrepareAns(r, a, res))
  }

  function DoHandleAccept(s: State, r: nat, a: string): State
    requires r in s.runs && a in s.acc
  {
    var (t, res) := Accept(s.acc[a], s.runs[r].instance, s.runs[r].n, s.runs[r].v);
    WithMsg(WithAcc(s, a, t), AcceptAns(r, a, res))
  }

  function DoRecvPrepare(s: State, r: nat, res: PrepareRes): State
    requires InPhase(s, r, Preparing) && s.runs[r].k < |s.runs[r].nodes|
  {
    var run := s.runs[r];
    if res.OldInstance? then
      Stop(WithAcc(s, run.node, Commit(s.acc[run.node], run.instance, res.v)), r)
    else
      WithRun(s, r, run.(prep := PrepareOne(run.prep, run.nodes[run.k], res), k := run.k + 1))
  }

  function DoEndPrepare(s: State, r: nat): State
    requires InPhase(s, r, Preparing)
  {
    var run := s.runs[r];
    if Majority(run.nodes, run.prep.accepts) then
      WithRun(s, r, run.(phase := Accepting, k := 0, v := if run.prep.v == "" then run.newV else run.prep.v))
    else Stop(s, r)
  }

  function DoRecvAccept(s: State, r: nat, res: AcceptRes): State
    requires InPhase(s, r, Accepting) && s.runs[r].k < |s.runs[r].prep.accepts|
  {
    var run := s.runs[r];
    var voters := if res == Ok(true) then run.voters + [run.prep.accepts[run.k]] else run.voters;
    WithRun(s, r, run.(voters := voters, k := run.k + 1))
  }

  function DoEndAccept(s: State, r: nat): State
    requires InPhase(s, r, Accepting)
  {
    var run := s.runs[r];
    if Majority(run.nodes, run.voters) then WithRun(s, r, run.(phase := Deciding, k := 0)) else Stop(s, r)
  }

  function Killed(runs: map<nat, Run>, p: string): map<nat, Run> {
    map r | r in runs :: if runs[r].node == p then runs[r].(live := false) else runs[r]
  }

  function DoCrash(s: State, p: string, used: nat): State
    requires p in s.acc
  {
    WithProp(WithAcc(s, p, Restart(s.acc[p], p == s.first)), p, Proposer(true, used)).(runs := Killed(s.runs, p))
  }

  /** `restore` truncates p's log to the dump and then replays it onto p's fields. */
  function DoJoin(s: State, p: string, log: seq<LogRec>): State
    requires p in s.acc
  {
    WithAcc(s, p, Replay(s.acc[p], log).(log := log))
  }

  function Moved(s: State, r: nat): State
    requires r in s.runs
  {
    WithRun(s, r, s.runs[r].(k := s.runs[r].k + 1))
  }

  function Apply(s: State, st: Step): State
    requires Enabled(s, st)
  {
    match st
    case Start(p, r, j, newV) =>
      WithProp(WithRun(s, r, NewRun(s, p, j, newV)), p, Proposer(false, NewRun(s, p, j, newV).n.n))
    case SendPrepare(r) => WithMsg(s, PrepareReq(r, s.runs[r].nodes[s.runs[r].k]))
    case HandlePrepare(r, a) => DoHandlePrepare(s, r, a)
    case RecvPrepare(r, res) => DoRecvPrepare(s, r, res)
    case SkipPrepare(r) => Moved(s, r)
    case EndPrepare(r) => DoEndPrepare(s, r)
    case SendAccept(r) => WithMsg(s, AcceptReq(r, s.runs[r].prep.accepts[s.runs[r].k]))
    case HandleAccept(r, a) => DoHandleAccept(s, r, a)
    case RecvAccept(r, res) => DoRecvAccept(s, r, res)
    case SkipAccept(r) => Moved(s, r)
    case EndAccept(r) => DoEndAccept(s, r)
    case SendDecide(r) => Moved(WithMsg(s, DecideReq(r, s.runs[r].voters[s.runs[r].k])), r)
    case HandleDecide(r, a) => WithAcc(s, a, Commit(s.acc[a], s.runs[r].instance, s.runs[r].v))
    case EndRun(r) => Stop(s, r)
    case Crash(p, used) => DoCrash(s, p, used)
    case Dump(q) => WithMsg(s, LogDump(s.acc[q].log))
    case Join(p, log) => DoJoin(s, p, log)
  }

  /** A run of the system from s: every step is enabled and respects the hypothesis. */
  ghost predicate Runs(s: State, steps: seq<Step>, t: State)
    decreases |steps|
  {
    if |steps| == 0 then s == t
    else Enabled(s, steps[0]) && NoLag(s, steps[0]) && Runs(Apply(s, steps[0]), steps[1..], t)
  }
}
