/** The acceptor as a value: its handlers, its log records and the replay of a log. */
module AcceptorSpec {
  import opened PropNumbers

  /** One line of the durable log. */
  datatype LogRec =
    | Done(instance: nat, v: string)
    | High(n: Prop)
    | Accepted(n: Prop, v: string)

  datatype AccState = AccState(
    me: string,
    nH: Prop,                  // highest proposal promised
    nA: Prop,                  // highest proposal accepted
    vA: string,                // its value, empty when there is none
    instanceH: nat,            // highest instance decided
    values: map<nat, string>,  // value of each instance
    log: seq<LogRec>)          // what the log file holds

  datatype PrepareRes = OldInstance(v: string) | Promised(nA: Prop, vA: string) | Refused

  datatype AcceptRes = Err | Ok(accepted: bool)

  /** Reading a missing instance yields the empty string. */
  function ValueOf(values: map<nat, string>, i: nat): string {
    if i in values then values[i] else ""
  }

  /** `values[i]` inserts an empty entry when i is missing. */
  function Touch(values: map<nat, string>, i: nat): map<nat, string> {
    if i in values then values else values[i := ""]
  }

  function Prepare(s: AccState, instance: nat, n: Prop): (AccState, PrepareRes) {
    if instance <= s.instanceH then
      (s.(values := Touch(s.values, instance)), OldInstance(ValueOf(s.values, instance)))
    else if Gt(n, s.nH) then
      (s.(nH := n, log := s.log + [High(n)]), Promised(s.nA, s.vA))
    else
      (s, Refused)
  }

  function Accept(s: AccState, instance: nat, n: Prop, v: string): (AccState, AcceptRes) {
    if instance > s.instanceH then
      if Ge(n, s.nH) then
        (s.(nA := n, vA := v, log := s.log + [Accepted(n, v)]), Ok(true))
      else
        (s, Ok(false))
    else
      (s, Err)
  }

  function Commit(s: AccState, instance: nat, v: string): AccState {
    if instance > s.instanceH then
      s.(values := s.values[instance := v], log := s.log + [Done(instance, v)], instanceH := instance,
         nH := Prop(0, s.me), nA := Prop(0, s.me), vA := "")
    else s
  }

  // ---- the log ----

  /** The fields as the constructor leaves them before the log is read. */
  function Blank(me: string): AccState {
    AccState(me, Prop(0, me), Prop(0, me), "", 0, map[], [])
  }

  /** What reading one record does to the fields. */
  function ReplayOne(s: AccState, rec: LogRec): AccState {
    match rec
    case Done(i, v) =>
      s.(values := s.values[i := v], instanceH := i, vA := "", nH := Prop(0, s.nH.m), nA := Prop(0, s.nA.m))
    case High(n) => s.(nH := n)
    case Accepted(n, v) => s.(nA := n, vA := v)
  }

  function Replay(s: AccState, recs: seq<LogRec>): AccState {
    if |recs| == 0 then s
    else ReplayOne(Replay(s, recs[..|recs| - 1]), recs[|recs| - 1])
  }

  /** The constructor: read the log, then, on the first node only, install view 1. */
  function Construct(me: string, first: bool, value: string, log: seq<LogRec>): AccState {
    var s := Replay(Blank(me), log).(log := log);
    if s.instanceH == 0 && first then
      s.(values := s.values[1 := value], log := log + [Done(1, value)], instanceH := 1)
    else s
  }

  /** A restart builds the acceptor again from its own log. */
  function Restart(s: AccState, first: bool): AccState {
    Construct(s.me, first, s.me, s.log)
  }

  /** Numbers that no comparison with a counter above 0 can tell apart. */
  predicate SameNumber(a: Prop, b: Prop) {
    a.n == b.n && (a.n > 0 ==> a.m == b.m)
  }

  /** t is s up to the name of a number whose counter is 0 and up to empty entries that t lacks. */
  ghost predicate Matches(s: AccState, t: AccState) {
    && s.me == t.me && s.instanceH == t.instanceH && s.vA == t.vA
    && SameNumber(s.nH, t.nH) && SameNumber(s.nA, t.nA)
    && t.values.Keys <= s.values.Keys
    && (forall i: nat :: ValueOf(s.values, i) == ValueOf(t.values, i))
  }

  /** The log rebuilds the state. */
  ghost predicate Recoverable(s: AccState) {
    Matches(s, Replay(Blank(s.me), s.log))
  }

  lemma ReplaySnoc(s: AccState, recs: seq<LogRec>, rec: LogRec)
    ensures Replay(s, recs + [rec]) == ReplayOne(Replay(s, recs), rec)
  {
    assert (recs + [rec])[..|recs|] == recs;
  }

  lemma RecoverableKept(s: AccState, instance: nat, n: Prop, v: string)
    requires Recoverable(s)
    ensures Recoverable(Prepare(s, instance, n).0)
    ensures Recoverable(Accept(s, instance, n, v).0)
    ensures Recoverable(Commit(s, instance, v))
  {
    ReplaySnoc(Blank(s.me), s.log, High(n));
    ReplaySnoc(Blank(s.me), s.log, Accepted(n, v));
    ReplaySnoc(Blank(s.me), s.log, Done(instance, v));
    var t := Replay(Blank(s.me), s.log);
    var u := ReplayOne(t, Done(instance, v));
    forall i: nat
      ensures ValueOf(Commit(s, instance, v).values, i) ==
                if instance > s.instanceH then ValueOf(u.values, i) else ValueOf(t.values, i)
      ensures ValueOf(Touch(s.values, instance), i) == ValueOf(t.values, i)
    {
      assert ValueOf(s.values, i) == ValueOf(t.values, i);
    }
  }

  lemma ReplayKeepsNameAndLog(s: AccState, recs: seq<LogRec>)
    ensures Replay(s, recs).me == s.me && Replay(s, recs).log == s.log
  {
  }

  /** A restart gives back a matching state; the first node always has view 1 by then. */
  lemma RestartMatches(s: AccState, first: bool)
    requires Recoverable(s) && (first ==> s.instanceH > 0)
    ensures Matches(s, Restart(s, first)) && Restart(s, first).log == s.log
    ensures Recoverable(Restart(s, first))
  {
  }

  /** A restart knows nothing but the name and the log. */
  lemma RestartReadsOnlyTheLog(s: AccState, t: AccState, first: bool)
    requires s.me == t.me && s.log == t.log
    ensures Restart(s, first) == Restart(t, first)
  {
  }

  datatype Event =
    | EvPrepare(instance: nat, n: Prop)
    | EvAccept(instance: nat, n: Prop, v: string)
    | EvCommit(instance: nat, v: string)
    | EvRestart

  function After(s: AccState, first: bool, e: Event): AccState {
    match e
    case EvPrepare(i, n) => Prepare(s, i, n).0
    case EvAccept(i, n, v) => Accept(s, i, n, v).0
    case EvCommit(i, v) => Commit(s, i, v)
    case EvRestart => Restart(s, first)
  }

  function AfterAll(s: AccState, first: bool, es: seq<Event>): AccState {
    if |es| == 0 then s
    else After(AfterAll(s, first, es[..|es| - 1]), first, es[|es| - 1])
  }

  ghost predicate Sound(s: AccState, me: string, first: bool) {
    s.me == me && Recoverable(s) && (first ==> s.instanceH > 0)
  }

  lemma SoundKept(s: AccState, me: string, first: bool, e: Event)
    requires Sound(s, me, first)
    ensures Sound(After(s, first, e), me, first)
  {
    match e {
      case EvPrepare(i, n) => RecoverableKept(s, i, n, "");
      case EvAccept(i, n, v) => RecoverableKept(s, i, n, v);
      case EvCommit(i, v) => RecoverableKept(s, i, s.nH, v);
      case EvRestart => RestartMatches(s, first);
    }
  }

  lemma SoundAtFirst(me: string, first: bool)
    ensures Sound(Construct(me, first, me, []), me, first)
  {
    if first {
      assert Construct(me, first, me, []).log == [Done(1, me)];
      ReplaySnoc(Blank(me), [], Done(1, me));
      assert [] + [Done(1, me)] == [Done(1, me)];
    }
  }

  /** Main result of the log: after any handler sequence, restarts included, a restart rebuilds the state. */
  lemma {:induction false} CrashRecovery(me: string, first: bool, es: seq<Event>)
    ensures var s := AfterAll(Construct(me, first, me, []), first, es);
            Sound(s, me, first) && Matches(s, Restart(s, first))
  {
    var s0 := Construct(me, first, me, []);
    if |es| == 0 {
      SoundAtFirst(me, first);
    } else {
      CrashRecovery(me, first, es[..|es| - 1]);
      SoundKept(AfterAll(s0, first, es[..|es| - 1]), me, first, es[|es| - 1]);
    }
    RestartMatches(AfterAll(s0, first, es), first);
  }

  /** What a proposer can see of an answer. */
  ghost predicate SameAnswer(a: PrepareRes, b: PrepareRes) {
    match (a, b)
    case (OldInstance(v), OldInstance(w)) => v == w
    case (Promised(n, v), Promised(m, w)) => SameNumber(n, m) && v == w
    case (Refused, Refused) => true
    case _ => false
  }

  /** Proposers cannot tell a restarted acceptor from one that never stopped: matching states give
      the same answers to every request that carries a number made by `setn`, and match afterwards. */
  lemma RestartIsInvisible(s: AccState, t: AccState, instance: nat, n: Prop, v: string)
    requires Matches(s, t) && n.n > 0
    ensures SameAnswer(Prepare(s, instance, n).1, Prepare(t, instance, n).1)
    ensures Matches(Prepare(s, instance, n).0, Prepare(t, instance, n).0)
    ensures Accept(s, instance, n, v).1 == Accept(t, instance, n, v).1
    ensures Matches(Accept(s, instance, n, v).0, Accept(t, instance, n, v).0)
    ensures Matches(Commit(s, instance, v), Commit(t, instance, v))
  {
    hide StrLess;
    forall i: nat
      ensures ValueOf(Commit(s, instance, v).values, i) == ValueOf(Commit(t, instance, v).values, i)
      ensures ValueOf(Touch(s.values, instance), i) == ValueOf(Touch(t.values, instance), i)
    {
      assert ValueOf(s.values, i) == ValueOf(t.values, i);
    }
    assert ValueOf(s.values, instance) == ValueOf(t.values, instance);
  }

  // ---- what each handler answers and leaves ----

  /** An open instance and a number above the promise are what a promise takes; it reports what was accepted and changes
      the promise only. */
  lemma PromiseExactlyWhen(s: AccState, i: nat, n: Prop)
    ensures var (t, res) := Prepare(s, i, n);
            && (res.Promised? <==> s.instanceH < i && Gt(n, s.nH))
            && (res.Promised? ==> res.nA == s.nA && res.vA == s.vA && t == s.(nH := n, log := s.log + [High(n)]))
            && (res == Refused <==> s.instanceH < i && (n == s.nH || Gt(s.nH, n)))
            && (res == Refused ==> t == s)
  {
    GtTotalOrder(n, s.nH, n);
  }

  /** A decided instance is answered with its value, empty when it has none, and no promise or vote changes. */
  lemma OldInstanceExactlyWhen(s: AccState, i: nat, n: Prop)
    ensures var (t, res) := Prepare(s, i, n);
            && (res.OldInstance? <==> i <= s.instanceH)
            && (res.OldInstance? ==>
                  && res.v == (if i in s.values then s.values[i] else "")
                  && t == s.(values := t.values) && t.values.Keys == s.values.Keys + {i}
                  && forall j :: j in t.values ==> t.values[j] == if j in s.values then s.values[j] else "")
  {
  }

  /** An open instance and a number not below the promise are what a vote takes; it changes what was accepted only. */
  lemma VoteExactlyWhen(s: AccState, i: nat, n: Prop, v: string)
    ensures var (t, res) := Accept(s, i, n, v);
            && (res == Ok(true) <==> s.instanceH < i && (n == s.nH || Gt(n, s.nH)))
            && (res == Ok(true) ==> t == s.(nA := n, vA := v, log := s.log + [Accepted(n, v)]))
            && (res == Ok(false) <==> s.instanceH < i && Gt(s.nH, n))
            && (res == Err <==> i <= s.instanceH)
            && (res != Ok(true) ==> t == s)
  {
    GtTotalOrder(n, s.nH, n);
  }

  /** A decision is recorded exactly when it is for an open instance; then nothing is promised or accepted any more. */
  lemma CommitRecordsExactlyWhen(s: AccState, i: nat, v: string)
    ensures var t := Commit(s, i, v);
            && (i <= s.instanceH ==> t == s)
            && (i > s.instanceH ==>
                  && t.instanceH == i && t.values == s.values[i := v] && t.log == s.log + [Done(i, v)] && t.me == s.me
                  && t.nH == Prop(0, s.me) && t.nA == Prop(0, s.me) && t.vA == "")
  {
  }

  /** Only the first node, and only while its log has no view, gives itself view 1. */
  lemma FirstViewExactlyWhen(me: string, first: bool, v: string, log: seq<LogRec>)
    ensures var s, t := Replay(Blank(me), log), Construct(me, first, v, log);
            if first && s.instanceH == 0
            then && t.instanceH == 1 && t.values == s.values[1 := v] && t.log == log + [Done(1, v)]
                 && t.nH == s.nH && t.nA == s.nA
            else t == s.(log := log)
  {
  }

  /** Where the fields stand after a log: the views are those of its done records, the promise and the accepted proposal
      those of the last high and prop records behind the last done record. */
  lemma ReplayStep(s: AccState, recs: seq<LogRec>, i: nat, v: string, n: Prop)
    ensures var t := Replay(s, recs + [Done(i, v)]);
            t.instanceH == i && t.values == Replay(s, recs).values[i := v] && t.nH.n == 0 && t.nA.n == 0 && t.vA == ""
    ensures Replay(s, recs + [High(n)]) == Replay(s, recs).(nH := n)
    ensures Replay(s, recs + [Accepted(n, v)]) == Replay(s, recs).(nA := n, vA := v)
    ensures Replay(s, []) == s
  {
    ReplaySnoc(s, recs, Done(i, v));
    ReplaySnoc(s, recs, High(n));
    ReplaySnoc(s, recs, Accepted(n, v));
  }
}
