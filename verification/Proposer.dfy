/** The proposer object. What its RPCs return are parameters: one answer per node asked, none when the call failed. */
module ProposerObject {
  import opened PropNumbers
  import opened AcceptorSpec
  import opened AcceptorObject
  import opened ProposerSpec
  import opened Views
  import opened Wrappers

  /** The prepare loop after k answers: the locals, and the value of an old-instance reply if one ended the loop. */
  function Prepared(nodes: seq<string>, answers: seq<Option<PrepareRes>>, k: nat): (Prep, Option<string>)
    requires k <= |nodes| && k <= |answers|
  {
    if k == 0 then (EmptyPrep(), None)
    else
      var (p, known) := Prepared(nodes, answers, k - 1);
      if known.Some? || answers[k - 1].None? then (p, known)
      else
        var res := answers[k - 1].value;
        if res.OldInstance? then (p, Some(res.v)) else (PrepareOne(p, nodes[k - 1], res), None)
  }

  predicate Promises(answers: seq<Option<PrepareRes>>, i: nat) {
    i < |answers| && answers[i].Some? && answers[i].value.Promised?
  }

  predicate Accepts(answers: seq<Option<AcceptRes>>, i: nat) {
    i < |answers| && answers[i] == Some(Ok(true))
  }

  ghost function PromisersOf(answers: seq<Option<PrepareRes>>): set<nat> {
    set i: nat | i < |answers| && Promises(answers, i)
  }

  ghost function AcceptersOf(answers: seq<Option<AcceptRes>>): set<nat> {
    set i: nat | i < |answers| && Accepts(answers, i)
  }

  /** Position i holds the first old-instance reply, with value w. */
  ghost predicate FirstOld(answers: seq<Option<PrepareRes>>, i: nat, w: string) {
    && i < |answers| && answers[i] == Some(OldInstance(w))
    && forall j :: 0 <= j < i ==> !(answers[j].Some? && answers[j].value.OldInstance?)
  }

  ghost predicate NoOld(answers: seq<Option<PrepareRes>>) {
    forall a :: a in answers && a.Some? ==> !a.value.OldInstance?
  }

  /** The accept loop after k answers. */
  function Voters(nodes: seq<string>, answers: seq<Option<AcceptRes>>, k: nat): seq<string>
    requires k <= |nodes| && k <= |answers|
  {
    if k == 0 then []
    else if answers[k - 1] == Some(Ok(true)) then Voters(nodes, answers, k - 1) + [nodes[k - 1]]
    else Voters(nodes, answers, k - 1)
  }

  lemma {:induction false} PreparedKeepsOld(nodes: seq<string>, answers: seq<Option<PrepareRes>>, k: nat, l: nat)
    requires k <= l <= |nodes| == |answers| && Prepared(nodes, answers, k).1.Some?
    ensures Prepared(nodes, answers, l) == Prepared(nodes, answers, k)
  {
    if k < l {
      PreparedKeepsOld(nodes, answers, k, l - 1);
    }
  }

  lemma {:induction false} NoOldSoFar(nodes: seq<string>, answers: seq<Option<PrepareRes>>, k: nat)
    requires k <= |nodes| && k <= |answers|
    requires forall j :: 0 <= j < k ==> !(answers[j].Some? && answers[j].value.OldInstance?)
    ensures Prepared(nodes, answers, k).1 == None
  {
    if k > 0 {
      NoOldSoFar(nodes, answers, k - 1);
    }
  }

  /** The prepare loop ends at the first old-instance reply with its value, and without one it does not end early. */
  lemma LoopEndsExactlyAtOld(nodes: seq<string>, answers: seq<Option<PrepareRes>>)
    requires |nodes| == |answers|
    ensures forall i: nat, w :: FirstOld(answers, i, w) ==>
              Prepared(nodes, answers, |nodes|) == (Prepared(nodes, answers, i).0, Some(w))
    ensures NoOld(answers) ==> Prepared(nodes, answers, |nodes|).1 == None
    ensures NoOld(answers) || exists i: nat, w :: FirstOld(answers, i, w)
  {
    forall i: nat, w | FirstOld(answers, i, w)
      ensures Prepared(nodes, answers, |nodes|) == (Prepared(nodes, answers, i).0, Some(w))
    {
      NoOldSoFar(nodes, answers, i);
      PreparedKeepsOld(nodes, answers, i + 1, |nodes|);
    }
    if NoOld(answers) {
      NoOldSoFar(nodes, answers, |nodes|);
    } else {
      SomeFirstOld(answers, |answers|);
    }
  }

  lemma {:induction false} SomeFirstOld(answers: seq<Option<PrepareRes>>, k: nat)
    requires k <= |answers| && !NoOld(answers[..k])
    ensures exists i: nat, w :: FirstOld(answers, i, w)
  {
    if NoOld(answers[..k - 1]) {
      assert answers[..k] == answers[..k - 1] + [answers[k - 1]];
      assert forall j :: 0 <= j < k - 1 ==> answers[j] in answers[..k - 1];
      assert FirstOld(answers, k - 1, answers[k - 1].value.v);
    } else {
      SomeFirstOld(answers, k - 1);
    }
  }

  lemma {:induction false} AcceptsFit(nodes: seq<string>, answers: seq<Option<PrepareRes>>, k: nat)
    requires k <= |nodes| == |answers|
    ensures |Prepared(nodes, answers, k).0.accepts| <= k
  {
    if k > 0 {
      AcceptsFit(nodes, answers, k - 1);
    }
  }

  /** The value a run proposes after a successful prepare. */
  function Proposal(p: Prep, newV: string): string {
    if p.v == "" then newV else p.v
  }

  datatype Outcome =
    | Busy                                     // already running
    | OldValue(v: string)                      // an acceptor had decided the instance
    | NoPrepareMajority
    | NoAcceptMajority
    | Decided(v: string, voters: seq<string>)  // the decide requests to send

  function RunOutcome(nodes: seq<string>, newV: string, pres: seq<Option<PrepareRes>>,
        ares: seq<Option<AcceptRes>>): Outcome
    requires |pres| == |nodes| == |ares|
  {
    var (p, known) := Prepared(nodes, pres, |nodes|);
    AcceptsFit(nodes, pres, |nodes|);
    if known.Some? then OldValue(known.value)
    else if !Majority(nodes, p.accepts) then NoPrepareMajority
    else
      var voters := Voters(p.accepts, ares, |p.accepts|);
      if Majority(nodes, voters) then Decided(Proposal(p, newV), voters) else NoAcceptMajority
  }

  method IsAMember(m: string, nodes: seq<string>) returns (found: bool)
    ensures found <==> m in nodes
  {
    for i := 0 to |nodes|
      invariant m !in nodes[..i]
    {
      if nodes[i] == m {
        return true;
      }
    }
    return false;
  }

  method IsMajority(l1: seq<string>, l2: seq<string>) returns (r: bool)
    ensures r <==> Majority(l1, l2)
  {
    var n := 0;
    for i := 0 to |l1|
      invariant n == Hits(l1[..i], l2)
    {
      var found := IsAMember(l1[i], l2);
      if found {
        n := n + 1;
      }
      assert l1[..i + 1][..i] == l1[..i];
    }
    assert l1[..|l1|] == l1;
    r := n >= |l1| / 2 + 1;
  }

  class Proposer {
    const acc: Acceptor
    var stable: bool
    var cNodes: seq<string>
    var cV: string
    var myN: Prop

    /** my_n.n has no initial value in the constructor, so it is whatever memory holds. */
    constructor (acc: Acceptor, me: string, garbage: nat)
      ensures this.acc == acc && stable && myN == Prop(garbage, me)
    {
      this.acc := acc;
      stable := true;
      cNodes, cV := [], "";
      myN := Prop(garbage, me);
    }

    method SetN()
      modifies this`myN
      ensures myN == Prop(NextCounter(acc.nH.n, old(myN.n)), old(myN.m))
      ensures Gt(myN, old(myN)) && myN.n > acc.nH.n
    {
      myN := myN.(n := if acc.nH.n + 1 > myN.n + 1 then acc.nH.n + 1 else myN.n + 1);
    }

    /** Sends prepare to each node in turn; an old-instance reply commits its value locally and ends the loop. */
    method Prepare(instance: nat, nodes: seq<string>, answers: seq<Option<PrepareRes>>)
      returns (ok: bool, accepts: seq<string>, v: string, ghost max: Prop)
      requires |answers| == |nodes| && acc.Valid()
      requires forall a :: a in answers && a.Some? && a.value.OldInstance? ==> '\n' !in a.value.v
      modifies acc
      ensures acc.Valid() && ok == Prepared(nodes, answers, |nodes|).1.None?
      ensures forall i: nat, w :: FirstOld(answers, i, w) ==>
                !ok && acc.State() == Commit(old(acc.State()), instance, w)
      ensures NoOld(answers) ==> ok && acc.State() == old(acc.State())
      ensures Prepared(nodes, answers, |nodes|).0 == Prep(accepts, max, v)
      ensures acc.State() ==
              if ok then old(acc.State())
              else Commit(old(acc.State()), instance, Prepared(nodes, answers, |nodes|).1.value)
    {
      var top := Prop(0, "");
      accepts, v, max := [], "", top;
      LoopEndsExactlyAtOld(nodes, answers);
      for k := 0 to |nodes|
        invariant Prepared(nodes, answers, k) == (Prep(accepts, top, v), None)
        invariant acc.Valid() && acc.State() == old(acc.State())
      {
        assert answers[k] in answers;
        if answers[k].Some? {
          match answers[k].value {
            case Promised(nA, vA) =>
              accepts := accepts + [nodes[k]];
              if Gt(nA, top) {
                top := nA;
                v := vA;
              }
            case Refused =>
            case OldInstance(w) =>
              var upcall := acc.CommitValue(instance, w);
              PreparedKeepsOld(nodes, answers, k + 1, |nodes|);
              return false, accepts, v, top;
          }
        }
      }
      max := top;
      ok := true;
    }

    /** Sends accept to each promiser in turn. */
    method AcceptLoop(nodes: seq<string>, answers: seq<Option<AcceptRes>>) returns (accepts: seq<string>)
      requires |nodes| <= |answers|
      ensures accepts == Voters(nodes, answers, |nodes|)
    {
      accepts := [];
      for k := 0 to |nodes|
        invariant accepts == Voters(nodes, answers, k)
      {
        if answers[k].Some? && answers[k].value.Ok? && answers[k].value.accepted {
          accepts := accepts + [nodes[k]];
        }
      }
    }

    /** `run`: true exactly when a majority promised and then a majority accepted. */
    method Run(instance: nat, newNodes: seq<string>, newV: string, pres: seq<Option<PrepareRes>>,
        ares: seq<Option<AcceptRes>>)
      returns (r: bool, outcome: Outcome)
      requires |pres| == |newNodes| == |ares| && acc.Valid()
      requires forall a :: a in pres && a.Some? && a.value.OldInstance? ==> '\n' !in a.value.v
      modifies this, acc
      ensures acc.Valid()
      ensures !old(stable) ==> !r && outcome == Busy && acc.State() == old(acc.State()) && myN == old(myN) && !stable
      ensures old(stable) ==>
                && stable && cNodes == newNodes && cV == newV && outcome == RunOutcome(newNodes, newV, pres, ares)
                && r == outcome.Decided? && myN == Prop(NextCounter(old(acc.nH.n), old(myN.n)), old(myN.m))
                && acc.State() ==
                   if outcome.OldValue? then Commit(old(acc.State()), instance, outcome.v) else old(acc.State())
      ensures old(stable) ==> forall i: nat, w :: FirstOld(pres, i, w) ==>
                !r && outcome == OldValue(w) && acc.State() == Commit(old(acc.State()), instance, w)
    {
      if !stable {
        return false, Busy;
      }
      stable := false;
      cNodes := newNodes;
      cV := newV;
      SetN();
      r := false;
      LoopEndsExactlyAtOld(newNodes, pres);
      var ok, accepts, v, max := Prepare(instance, cNodes, pres);
      AcceptsFit(newNodes, pres, |newNodes|);
      if ok {
        var enough := IsMajority(cNodes, accepts);
        if enough {
          if |v| == 0 {
            v := cV;
          }
          accepts := AcceptLoop(accepts, ares);
          var chosen := IsMajority(cNodes, accepts);
          if chosen {
            outcome := Decided(v, accepts);
            r := true;
          } else {
            outcome := NoAcceptMajority;
          }
        } else {
          outcome := NoPrepareMajority;
        }
      } else {
        outcome := OldValue(Prepared(newNodes, pres, |newNodes|).1.value);
      }
      stable := true;
    }
  }

  /** The loop of `prepare` keeps the highest proposal reported by the nodes it counts, and only those. */
  lemma {:induction false} PreparedKeepsTheHighest(nodes: seq<string>, answers: seq<Option<PrepareRes>>, k: nat, i: nat)
    requires i < k <= |nodes| == |answers| && Prepared(nodes, answers, k).1.None?
    requires answers[i].Some? && answers[i].value.Promised?
    ensures nodes[i] in Prepared(nodes, answers, k).0.accepts
    ensures Ge(Prepared(nodes, answers, k).0.max, answers[i].value.nA)
  {
    var p := Prepared(nodes, answers, k - 1).0;
    var q := Prepared(nodes, answers, k).0;
    var nA := answers[i].value.nA;
    if i == k - 1 {
      GtTotalOrder(p.max, nA, nA);
      GtTotalOrder(nA, p.max, nA);
      GtTotalOrder(nA, nA, nA);
    } else {
      PreparedKeepsTheHighest(nodes, answers, k - 1, i);
      GtTotalOrder(q.max, p.max, nA);
      GtTotalOrder(p.max, nA, nA);
      GtTotalOrder(q.max, nA, nA);
    }
  }

  /** A decided run really had both majorities, and its voters are among its promisers. */
  lemma DecidedHasMajorities(nodes: seq<string>, newV: string, pres: seq<Option<PrepareRes>>,
        ares: seq<Option<AcceptRes>>)
    requires |pres| == |nodes| == |ares| && newV != "" && RunOutcome(nodes, newV, pres, ares).Decided?
    ensures var o := RunOutcome(nodes, newV, pres, ares);
            && Majority(nodes, Prepared(nodes, pres, |nodes|).0.accepts) && Majority(nodes, o.voters) && o.v != ""
            && forall a :: a in o.voters ==> a in Prepared(nodes, pres, |nodes|).0.accepts
  {
    AcceptsFit(nodes, pres, |nodes|);
    VotersAmong(Prepared(nodes, pres, |nodes|).0.accepts, ares, |Prepared(nodes, pres, |nodes|).0.accepts|);
  }

  lemma {:induction false} VotersAmong(nodes: seq<string>, answers: seq<Option<AcceptRes>>, k: nat)
    requires k <= |nodes| <= |answers|
    ensures forall a :: a in Voters(nodes, answers, k) ==> a in nodes
  {
    if k > 0 {
      VotersAmong(nodes, answers, k - 1);
    }
  }

  /** xs are the nodes at the positions idx, which ascend. */
  ghost predicate Selects(xs: seq<string>, nodes: seq<string>, idx: seq<nat>) {
    && |xs| == |idx| && (forall j :: 0 <= j < |idx| ==> idx[j] < |nodes| && xs[j] == nodes[idx[j]])
    && forall i, j :: 0 <= i < j < |idx| ==> idx[i] < idx[j]
  }

  /** idx are exactly the positions below k that are in all. */
  ghost predicate Exactly(idx: seq<nat>, k: nat, all: set<nat>) {
    forall i: nat :: i in idx <==> i < k && i in all
  }

  lemma ExactlyOneMore(idx: seq<nat>, k: nat, all: set<nat>)
    requires Exactly(idx, k, all)
    ensures forall j :: j in idx ==> j < k
    ensures Exactly(if k in all then idx + [k] else idx, k + 1, all)
  {
    assert forall i: nat :: i in idx + [k] <==> i in idx || i == k;
  }

  lemma SelectsOneMore(xs: seq<string>, nodes: seq<string>, idx: seq<nat>, i: nat)
    requires Selects(xs, nodes, idx) && i < |nodes| && forall j :: j in idx ==> j < i
    ensures Selects(xs + [nodes[i]], nodes, idx + [i])
  {
    assert forall j :: 0 <= j < |idx| ==> idx[j] in idx;
  }

  /** After k answers the prepare loop has collected the nodes at the positions idx, which are exactly those that
      promised. */
  ghost predicate PromisersAt(nodes: seq<string>, answers: seq<Option<PrepareRes>>, k: nat, idx: seq<nat>)
    requires k <= |nodes| && k <= |answers|
  {
    && Selects(Prepared(nodes, answers, k).0.accepts, nodes, idx)
    && Exactly(idx, k, PromisersOf(answers))
  }

  lemma PromisersStep(nodes: seq<string>, answers: seq<Option<PrepareRes>>, k: nat, idx: seq<nat>)
    requires 0 < k <= |nodes| && k <= |answers| && Prepared(nodes, answers, k).1.None?
    requires PromisersAt(nodes, answers, k - 1, idx)
    ensures PromisersAt(nodes, answers, k, if Promises(answers, k - 1) then idx + [k - 1] else idx)
  {
    hide Selects, Exactly, Gt;
    ExactlyOneMore(idx, k - 1, PromisersOf(answers));
    if Promises(answers, k - 1) {
      SelectsOneMore(Prepared(nodes, answers, k - 1).0.accepts, nodes, idx, k - 1);
    }
  }

  /** The prepare loop collects the nodes at exactly the positions that promised, in order. */
  lemma {:induction false} AcceptsAreThePromisers(nodes: seq<string>, answers: seq<Option<PrepareRes>>, k: nat)
    requires k <= |nodes| && k <= |answers| && Prepared(nodes, answers, k).1.None?
    ensures exists idx :: PromisersAt(nodes, answers, k, idx)
  {
    if k == 0 {
      assert PromisersAt(nodes, answers, 0, []);
    } else {
      assert Prepared(nodes, answers, k - 1).1.None?;
      hide PromisersAt, Prepared;
      AcceptsAreThePromisers(nodes, answers, k - 1);
      var idx :| PromisersAt(nodes, answers, k - 1, idx);
      PromisersStep(nodes, answers, k, idx);
    }
  }

  /** Position i promised with exactly this report, and it is the first whose report is that high. */
  predicate KeptFrom(answers: seq<Option<PrepareRes>>, p: Prep, i: nat) {
    && Promises(answers, i) && answers[i].value == Promised(p.max, p.v)
    && forall j: nat :: j < i && Promises(answers, j) ==> Gt(p.max, answers[j].value.nA)
  }

  /** The value kept is that of the first among the highest reports, and none when no report is above the least
      number. */
  lemma {:induction false} KeptReportIs(nodes: seq<string>, answers: seq<Option<PrepareRes>>, k: nat)
    requires k <= |nodes| && k <= |answers| && Prepared(nodes, answers, k).1.None?
    ensures var p := Prepared(nodes, answers, k).0;
            && (forall i: nat :: i < k && Promises(answers, i) ==> Ge(p.max, answers[i].value.nA))
            && Ge(p.max, Prop(0, ""))
            && if p.max == Prop(0, "") then p.v == "" else exists i: nat :: i < k && KeptFrom(answers, p, i)
  {
    if k == 0 {
      GtTotalOrder(Prop(0, ""), Prop(0, ""), Prop(0, ""));
    } else {
      KeptReportIs(nodes, answers, k - 1);
      var p, q := Prepared(nodes, answers, k - 1).0, Prepared(nodes, answers, k).0;
      if Promises(answers, k - 1) {
        var nA := answers[k - 1].value.nA;
        GtTotalOrder(nA, p.max, nA);
        GtTotalOrder(p.max, nA, p.max);
        GtTotalOrder(nA, p.max, Prop(0, ""));
        GtTotalOrder(p.max, Prop(0, ""), nA);
        GtTotalOrder(q.max, Prop(0, ""), q.max);
        GtTotalOrder(q.max, nA, q.max);
        if Gt(nA, p.max) {
          forall i: nat | i < k - 1 && Promises(answers, i)
            ensures Gt(nA, answers[i].value.nA)
          {
            GtTotalOrder(nA, p.max, answers[i].value.nA);
            GtTotalOrder(p.max, answers[i].value.nA, nA);
          }
          forall i: nat | i < k && Promises(answers, i)
            ensures Ge(q.max, answers[i].value.nA)
          {
            GtTotalOrder(nA, answers[i].value.nA, nA);
          }
          assert KeptFrom(answers, q, k - 1);
        } else if p.max != Prop(0, "") {
          var i: nat :| i < k - 1 && KeptFrom(answers, p, i);
          assert KeptFrom(answers, q, i);
        }
      }
    }
  }

  /** After k answers the accept loop has collected the nodes at the positions idx, which are exactly those that
      accepted. */
  ghost predicate AcceptersAt(nodes: seq<string>, answers: seq<Option<AcceptRes>>, k: nat, idx: seq<nat>)
    requires k <= |nodes| && k <= |answers|
  {
    && Selects(Voters(nodes, answers, k), nodes, idx)
    && Exactly(idx, k, AcceptersOf(answers))
  }

  lemma AcceptersStep(nodes: seq<string>, answers: seq<Option<AcceptRes>>, k: nat, idx: seq<nat>)
    requires 0 < k <= |nodes| && k <= |answers| && AcceptersAt(nodes, answers, k - 1, idx)
    ensures AcceptersAt(nodes, answers, k, if Accepts(answers, k - 1) then idx + [k - 1] else idx)
  {
    hide Selects, Exactly;
    ExactlyOneMore(idx, k - 1, AcceptersOf(answers));
    if Accepts(answers, k - 1) {
      SelectsOneMore(Voters(nodes, answers, k - 1), nodes, idx, k - 1);
    }
  }

  /** The accept loop collects the nodes at exactly the positions that accepted, in order. */
  lemma {:induction false} VotersAreTheAccepters(nodes: seq<string>, answers: seq<Option<AcceptRes>>, k: nat)
    requires k <= |nodes| && k <= |answers|
    ensures exists idx :: AcceptersAt(nodes, answers, k, idx)
  {
    if k == 0 {
      assert AcceptersAt(nodes, answers, 0, []);
    } else {
      hide AcceptersAt;
      VotersAreTheAccepters(nodes, answers, k - 1);
      var idx :| AcceptersAt(nodes, answers, k - 1, idx);
      AcceptersStep(nodes, answers, k, idx);
    }
  }

  /** How a run ends: with the value of the first old-instance reply; without one, by the two majorities; and a decided
      run decides its own value unless a report carried one. */
  lemma OutcomeExactlyWhen(nodes: seq<string>, newV: string, pres: seq<Option<PrepareRes>>,
        ares: seq<Option<AcceptRes>>)
    requires |pres| == |nodes| == |ares|
    ensures var o := RunOutcome(nodes, newV, pres, ares);
            var p := Prepared(nodes, pres, |nodes|).0;
            && o != Busy
            && (forall i: nat, w :: FirstOld(pres, i, w) ==> o == OldValue(w))
            && (o.OldValue? <==> !NoOld(pres))
            && (o.NoPrepareMajority? <==> NoOld(pres) && !Majority(nodes, p.accepts))
            && (o.Decided? ==> NoOld(pres) && Majority(nodes, p.accepts) && Majority(nodes, o.voters)
                               && o.v == if p.v == "" then newV else p.v)
            && |p.accepts| <= |ares|
            && (o.Decided? <==>
                  NoOld(pres) && Majority(nodes, p.accepts) && Majority(nodes, Voters(p.accepts, ares, |p.accepts|)))
            && (o.Decided? ==> o.voters == Voters(p.accepts, ares, |p.accepts|))
  {
    LoopEndsExactlyAtOld(nodes, pres);
    AcceptsFit(nodes, pres, |nodes|);
  }
}
