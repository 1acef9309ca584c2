/** The progress of the lock protocol carried over to the caches: the latest put can be read by anybody. */
module ExtentProgress {
  import opened Wrappers
  import opened LockSpec
  import opened ExtentSpec
  import opened ExtentSystem
  import L = LockSystem
  import P = LockProgress

  /** Every run of the lock protocol is one of the caches, with flushes where the locks say; it means nothing to the
      value. */
  lemma {:induction false} LockRunsAreRuns(s: Ext, steps: seq<L.Step>, l: L.Sys) returns (more: seq<Step>, u: Ext)
    requires Inv(s) && L.Runs(s.lock, steps, l)
    ensures Runs(s, more, u) && u.lock == l && Inv(u) && Shared(u) == Shared(s)
    decreases |steps|
  {
    hide L.Apply, L.Enabled, L.Inv;
    if |steps| == 0 {
      more, u := [], s;
    } else {
      var st := ExtentSystem.Lock(steps[0]);
      StepRefines(s, st);
      StepKept(s, st);
      var rest;
      rest, u := LockRunsAreRuns(Apply(s, st), steps[1..], l);
      more := [st] + rest;
      assert more[1..] == rest;
    }
  }

  lemma {:induction false} LockOfRun(s: Ext, steps: seq<Step>, t: Ext)
    requires Inv(s) && P.Good(s.lock) && Runs(s, steps, t)
    ensures P.Good(t.lock)
    decreases |steps|
  {
    hide L.Inv;
    if |steps| > 0 {
      var st := steps[0];
      if st.Lock? {
        L.StepKept(s.lock, st.st);
        P.AskedKept(s.lock, st.st);
      }
      StepKept(s, st);
      LockOfRun(Apply(s, st), steps[1..], t);
    }
  }

  /** Steps of the lock protocol alone, which leave the value, can bring any thread inside. */
  lemma AnybodyComesInside(s0: Ext, steps: seq<Step>, s: Ext, c: Client, h: Thread) returns (more: seq<Step>, u: Ext)
    requires Init(s0) && Runs(s0, steps, s) && c in s.lock.cli && h in s.lock.cli[c].thr
    ensures Runs(s, more, u) && L.ThreadIs(u.lock, c, h, L.Holding) && Inv(u) && Shared(u) == MeaningOfAll(steps, None)
  {
    hide L.Inv;
    L.InitOk(s0.lock);
    RunsRefine(s0, steps, s);
    LockOfRun(s0, steps, s);
    var l := P.AnyThreadGetsIt(s.lock, c, h);
    var ls :| L.Runs(s.lock, ls, l);
    more, u := LockRunsAreRuns(s, ls, l);
  }

  /** Whatever has happened, any thread of any client can go on to read the latest put. */
  lemma LatestPutCanBeReadByAnybody(s0: Ext, steps: seq<Step>, s: Ext, c: Client, h: Thread, buf: string)
    requires Init(s0) && Runs(s0, steps, s) && c in s.lock.cli && h in s.lock.cli[c].thr
    ensures exists more, u: Ext :: Runs(s, more, u) && Enabled(u, Get(c, h, buf))
              && (MeaningOfAll(steps, None).Some? ==>
                    GetEntry(Cached(u, c), u.disk, buf).1 == OK
                    && GetEntry(Cached(u, c), u.disk, buf).2 == MeaningOfAll(steps, None).value)
  {
    var more, u := AnybodyComesInside(s0, steps, s, c, h);
    HolderMayCache(u, c, h);
    SharedForOwner(u, c);
    assert Runs(s, more, u) && Enabled(u, Get(c, h, buf));
  }

  /** And it can go on to put or remove, after which that is what all see. */
  lemma AnybodyCanPutAndRemove(s0: Ext, steps: seq<Step>, s: Ext, c: Client, h: Thread, buf: string)
    requires Init(s0) && Runs(s0, steps, s) && c in s.lock.cli && h in s.lock.cli[c].thr
    ensures exists more, u: Ext :: Runs(s, more, u)
              && Enabled(u, Put(c, h, buf)) && Shared(Apply(u, Put(c, h, buf))) == Some(buf)
              && Enabled(u, Remove(c, h)) && Shared(Apply(u, Remove(c, h))) == None
  {
    var more, u := AnybodyComesInside(s0, steps, s, c, h);
    StepRefines(u, Put(c, h, buf));
    StepRefines(u, Remove(c, h));
    assert Runs(s, more, u) && Enabled(u, Put(c, h, buf));
  }
}
