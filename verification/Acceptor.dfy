/** The acceptor object: fields assigned in place and a log file that every handler appends to. */
module AcceptorObject {
  import opened PropNumbers
  import opened AcceptorSpec
  import opened LogText
  import opened Views

  class Acceptor {
    const me: string
    var nH: Prop
    var nA: Prop
    var vA: string
    var instanceH: nat
    var values: map<nat, string>
    var file: string              // paxos-<me>.log
    ghost var log: seq<LogRec>    // the records the file holds

    ghost function State(): AccState
      reads this
    {
      AccState(me, nH, nA, vA, instanceH, values, log)
    }

    ghost predicate Valid()
      reads this
    {
      file == PrintAll(log) && forall r :: r in log ==> Printable(r)
    }

    constructor (me: string, first: bool, value: string, file: string, ghost log: seq<LogRec>)
      requires file == PrintAll(log) && (forall r :: r in log ==> Printable(r)) && '\n' !in value
      ensures Valid() && State() == Construct(me, first, value, log)
    {
      this.me := me;
      nH, nA, vA := Prop(0, me), Prop(0, me), "";
      instanceH, values := 0, map[];
      this.file, this.log := file, [];
      new;
      var ok := LogRead();
      this.log := log;
      ParseOfPrinted(log);
      assert State() == Replay(Blank(me), log).(log := log) by {
        ReplayKeepsNameAndLog(Blank(me), log);
      }
      if instanceH == 0 && first {
        values := values[1 := value];
        LogInstance(1, value);
        instanceH := 1;
      }
    }

    method Append(ghost r: LogRec, line: string)
      requires Valid() && Printable(r) && line == Print(r)
      modifies this`file, this`log
      ensures Valid() && log == old(log) + [r]
    {
      file := file + line;
      PrintAllSnoc(log, r);
      log := log + [r];
    }

    method LogInstance(instance: nat, v: string)
      requires Valid() && '\n' !in v
      modifies this`file, this`log
      ensures Valid() && log == old(log) + [Done(instance, v)]
    {
      Append(Done(instance, v), "done" + (" " + (Dec(instance) + (" " + (v + "\n")))));
    }

    method LogHigh(n: Prop)
      requires Valid() && IsWord(n.m)
      modifies this`file, this`log
      ensures Valid() && log == old(log) + [High(n)]
    {
      Append(High(n), "high" + (" " + (Dec(n.n) + (" " + (n.m + "\n")))));
    }

    method LogProp(n: Prop, v: string)
      requires Valid() && IsWord(n.m) && '\n' !in v
      modifies this`file, this`log
      ensures Valid() && log == old(log) + [Accepted(n, v)]
    {
      Append(Accepted(n, v), "prop" + (" " + (Dec(n.n) + (" " + (n.m + (" " + (v + "\n")))))));
    }

    /** One turn of the reading loop: all are the records of the text, fine is false when it has an unknown one. */
    method ReadOne(text: string, ghost all: seq<LogRec>, ghost fine: bool)
      returns (got: bool, ok: bool, rest: string, ghost tail: seq<LogRec>)
      requires Parse(text) == (all, fine)
      modifies this`nH, this`nA, this`vA, this`instanceH, this`values
      ensures got ==> ok && |rest| < |text| && all != [] && tail == all[1..] && Parse(rest) == (tail, fine)
                      && State() == ReplayOne(old(State()), all[0])
      ensures !got ==> all == [] && ok == fine && State() == old(State())
    {
      ParseTurn(text);
      var (kind, s1) := ReadWord(text);
      got, ok, rest := true, true, s1;
      if kind == "" {
        got := false;
      } else if kind == "done" {
        var (i, s2) := ReadNat(s1);
        var (v, s3) := ReadLine(SkipChar(s2));
        values := values[i := v];
        instanceH := i;
        vA := "";
        nH := nH.(n := 0);
        nA := nA.(n := 0);
        rest := s3;
      } else if kind == "high" {
        var (n, s2) := ReadNat(s1);
        var (m, s3) := ReadWord(s2);
        nH := Prop(n, m);
        rest := s3;
      } else if kind == "prop" {
        var (n, s2) := ReadNat(s1);
        var (m, s3) := ReadWord(s2);
        var (v, s4) := ReadLine(SkipChar(s3));
        nA := Prop(n, m);
        vA := v;
        rest := s4;
      } else {
        got, ok := false, false;
      }
      tail := if got then all[1..] else [];
    }

    /** Replays whatever the file holds onto the fields; false is the assertion on an unknown record. */
    method LogRead() returns (ok: bool)
      modifies this`nH, this`nA, this`vA, this`instanceH, this`values
      ensures ok == Parse(file).1
      ensures State() == Replay(old(State()), Parse(file).0)
    {
      ghost var s0 := State();
      ghost var all, fine := Parse(file).0, Parse(file).1;
      ghost var done: seq<LogRec>, todo := [], all;
      var rest, more := file, true;
      ok := true;
      while more
        invariant State() == Replay(s0, done) && all == done + todo
        invariant more ==> ok && Parse(rest) == (todo, fine)
        invariant !more ==> todo == [] && ok == fine
        decreases |rest| + if more then 1 else 0
      {
        ghost var tail;
        more, ok, rest, tail := ReadOne(rest, todo, fine);
        if more {
          ReplaySnoc(s0, done, todo[0]);
          MoveOne(done, todo[0], tail);
          done, todo := done + [todo[0]], tail;
        } else {
          rest := "";
        }
      }
      assert done + [] == done;
    }

    static lemma MoveOne(done: seq<LogRec>, rec: LogRec, tail: seq<LogRec>)
      ensures done + ([rec] + tail) == (done + [rec]) + tail
    {
    }

    method ReadValue(instance: nat) returns (v: string)
      requires Valid()
      modifies this`values
      ensures Valid() && v == ValueOf(old(values), instance) && values == Touch(old(values), instance)
    {
      if instance !in values {
        values := values[instance := ""];
      }
      v := values[instance];
    }

    method PrepareReq(instance: nat, n: Prop) returns (res: PrepareRes)
      requires Valid() && IsWord(n.m)
      modifies this
      ensures Valid() && (State(), res) == Prepare(old(State()), instance, n)
    {
      if instance <= instanceH {
        var v := ReadValue(instance);
        res := OldInstance(v);
      } else if Gt(n, nH) {
        res := Promised(nA, vA);
        nH := n;
        LogHigh(nH);
      } else {
        res := Refused;
      }
    }

    method AcceptReq(instance: nat, n: Prop, v: string) returns (res: AcceptRes)
      requires Valid() && IsWord(n.m) && '\n' !in v
      modifies this
      ensures Valid() && (State(), res) == Accept(old(State()), instance, n, v)
    {
      if instance > instanceH {
        if Ge(n, nH) {
          nA := n;
          vA := v;
          LogProp(n, vA);
          res := Ok(true);
        } else {
          res := Ok(false);
        }
      } else {
        res := Err;
      }
    }

    /** `commit`, which `decidereq` calls and a proposer calls on an old-instance reply. The config gets its upcall,
        with the same arguments, exactly when upcall is true. */
    method CommitValue(instance: nat, v: string) returns (upcall: bool)
      requires Valid() && '\n' !in v
      modifies this
      ensures Valid() && State() == Commit(old(State()), instance, v) && upcall == (instance > old(instanceH))
    {
      upcall := instance > instanceH;
      if upcall {
        values := values[instance := v];
        LogInstance(instance, v);
        instanceH := instance;
        nH := Prop(0, me);
        nA := Prop(0, me);
        vA := "";
      }
    }

    /** Copies the file line by line; the copy is the file. */
    method Dump() returns (res: string)
      requires Valid()
      ensures res == file
    {
      LogEndsLines(log);
      DumpIsIdentity(file);
      res := "";
      var rest := file;
      while |rest| > 0
        invariant Lines(file) == res + Lines(rest)
        decreases |rest|
      {
        LinesStep(res, rest);
        res := res + (ReadLine(rest).0 + "\n");
        rest := ReadLine(rest).1;
      }
      assert res + "" == res;
    }

    /** Truncates the log to another node's dump and replays it onto the fields. */
    method Restore(text: string, ghost records: seq<LogRec>)
      requires Valid() && text == PrintAll(records) && forall r :: r in records ==> Printable(r)
      modifies this
      ensures Valid() && State() == Replay(old(State()), records).(log := records)
    {
      file := text;
      ParseOfPrinted(records);
      var ok := LogRead();
      ReplayKeepsNameAndLog(old(State()), records);
      log := records;
    }
  }
}
