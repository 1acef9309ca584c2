/** Write-back caches over the lock protocol: together they behave as one register per extent. */
module ExtentSystem {
  import opened Wrappers
  import opened LockSpec
  import opened ExtentSpec
  import L = LockSystem

  /** The lock of the extent, the server's record, and the clients' cache entries. */
  datatype Ext = Ext(lock: L.Sys, disk: Option<string>, cache: map<Client, Entry>)

  datatype Step =
    | Lock(st: L.Step)                               // Flush is dorelease: it flushes the extent
    | Get(c: Client, t: Thread, buf: string)
    | Put(c: Client, t: Thread, buf: string)
    | Remove(c: Client, t: Thread)

  ghost predicate Init(s: Ext) {
    L.Init(s.lock) && s.disk == None && s.cache == map[]
  }

  /** The extent's operations are called while the calling thread holds the lock. */
  predicate Enabled(s: Ext, st: Step) {
    match st
    case Lock(l) => L.Enabled(s.lock, l)
    case Get(c, t, buf) => L.ThreadIs(s.lock, c, t, L.Holding)
    case Put(c, t, buf) => L.ThreadIs(s.lock, c, t, L.Holding)
    case Remove(c, t) => L.ThreadIs(s.lock, c, t, L.Holding)
  }

  function Cached(s: Ext, c: Client): Option<Entry> {
    if c in s.cache then Some(s.cache[c]) else None
  }

  function Apply(s: Ext, st: Step): Ext
    requires Enabled(s, st)
  {
    match st
    case Lock(l) =>
      var t := s.(lock := L.Apply(s.lock, l));
      if l.Flush? then t.(disk := FlushedDisk(Cached(s, l.c), s.disk), cache := s.cache - {l.c}) else t
    case Get(c, t, buf) => s.(cache := s.cache[c := GetEntry(Cached(s, c), s.disk, buf).0])
    case Put(c, t, buf) => s.(cache := s.cache[c := PutEntry(buf)])
    case Remove(c, t) => s.(cache := s.cache[c := RemoveEntry()])
  }

  ghost predicate Runs(s: Ext, steps: seq<Step>, t: Ext)
    decreases |steps|
  {
    if |steps| == 0 then s == t
    else Enabled(s, steps[0]) && Runs(Apply(s, steps[0]), steps[1..], t)
  }

  /** The client may still have the extent cached: it owns the lock and has not flushed. */
  predicate MayCache(k: L.Cli) {
    L.Owns(k) && k.rel != L.Flushed
  }

  ghost predicate EntryOk(s: Ext, e: Entry) {
    && (!e.isDirty ==> EntryView(e) == s.disk)
    && (e.isDirty && !e.removed ==> e.existInServer)
  }

  ghost predicate Inv(s: Ext) {
    && L.Inv(s.lock)
    && (forall c :: c in s.cache ==> c in s.lock.cli && MayCache(s.lock.cli[c]) && EntryOk(s, s.cache[c]))
  }

  /** The one value all clients share: the owner's entry when there is one, else the server's record. */
  ghost function Shared(s: Ext): Option<string> {
    if c :| c in s.cache then EntryView(s.cache[c]) else s.disk
  }

  /** At most one client caches the extent. */
  lemma OneCache(s: Ext, c: Client, d: Client)
    requires Inv(s) && c in s.cache && d in s.cache
    ensures c == d
  {
    assert L.GrantOk(s.lock, c) && L.GrantOk(s.lock, d) && L.LocalOk(s.lock.cli[c]) && L.LocalOk(s.lock.cli[d]);
  }

  lemma SharedIs(s: Ext, c: Client)
    requires Inv(s) && c in s.cache
    ensures Shared(s) == EntryView(s.cache[c])
  {
    forall d | d in s.cache
      ensures d == c
    {
      OneCache(s, c, d);
    }
  }

  /** What the owner reads is the shared value, cached or not. */
  lemma SharedForOwner(s: Ext, c: Client)
    requires Inv(s) && c in s.lock.cli && MayCache(s.lock.cli[c])
    ensures Shared(s) == if c in s.cache then EntryView(s.cache[c]) else s.disk
    ensures forall d :: d in s.cache ==> d == c
  {
    forall d | d in s.cache
      ensures d == c
    {
      assert L.GrantOk(s.lock, c) && L.GrantOk(s.lock, d) && L.LocalOk(s.lock.cli[c]) && L.LocalOk(s.lock.cli[d]);
    }
    if c in s.cache {
      SharedIs(s, c);
    }
  }

  lemma HolderMayCache(s: Ext, c: Client, t: Thread)
    requires L.Inv(s.lock) && L.ThreadIs(s.lock, c, t, L.Holding)
    ensures MayCache(s.lock.cli[c])
  {
    assert L.LocalOk(s.lock.cli[c]);
  }

  /** Lock steps other than the flush leave a caching client in a state where it may cache. */
  lemma CacherStays(s: Ext, l: L.Step, c: Client)
    requires Inv(s) && L.Enabled(s.lock, l) && c in s.cache && !(l.Flush? && l.c == c)
    ensures c in L.Apply(s.lock, l).cli && MayCache(L.Apply(s.lock, l).cli[c])
  {
    assert L.LocalOk(s.lock.cli[c]);
  }

  lemma StepKept(s: Ext, st: Step)
    requires Inv(s) && Enabled(s, st)
    ensures Inv(Apply(s, st))
  {
    var t := Apply(s, st);
    match st {
      case Lock(l) =>
        L.StepKept(s.lock, l);
        forall c | c in t.cache
          ensures c in t.lock.cli && MayCache(t.lock.cli[c]) && EntryOk(t, t.cache[c])
        {
          CacherStays(s, l, c);
          if l.Flush? {
            OnlyFlusherCaches(s, l.c, c);
          }
        }
      case Get(c, h, buf) =>
        HolderMayCache(s, c, h);
        SharedForOwner(s, c);
      case Put(c, h, buf) =>
        HolderMayCache(s, c, h);
        SharedForOwner(s, c);
      case Remove(c, h) =>
        HolderMayCache(s, c, h);
        SharedForOwner(s, c);
    }
  }

  lemma OnlyFlusherCaches(s: Ext, f: Client, c: Client)
    requires Inv(s) && L.Enabled(s.lock, L.Flush(f)) && c in s.cache
    ensures c == f
  {
    assert L.LocalOk(s.lock.cli[f]);
    SharedForOwner(s, f);
  }

  /** What a step means to the one register: only put and remove change it. */
  function Meaning(st: Step, v: Option<string>): Option<string> {
    match st
    case Put(_, _, buf) => Some(buf)
    case Remove(_, _) => None
    case _ => v
  }

  /** Refinement: every step of clients, caches, locks and server is a step of the register. */
  lemma StepRefines(s: Ext, st: Step)
    requires Inv(s) && Enabled(s, st)
    ensures Shared(Apply(s, st)) == Meaning(st, Shared(s))
  {
    var t := Apply(s, st);
    StepKept(s, st);
    match st {
      case Lock(l) =>
        if l.Flush? {
          assert L.LocalOk(s.lock.cli[l.c]);
          SharedForOwner(s, l.c);
          assert forall c :: c !in t.cache;
        } else if c :| c in s.cache {
          SharedIs(s, c);
          SharedIs(t, c);
        }
      case Get(c, h, buf) =>
        HolderMayCache(s, c, h);
        SharedForOwner(s, c);
        SharedIs(t, c);
      case Put(c, h, buf) => SharedIs(t, c);
      case Remove(c, h) => SharedIs(t, c);
    }
  }

  /** The register after a list of steps. */
  function MeaningOfAll(steps: seq<Step>, v: Option<string>): Option<string> {
    if |steps| == 0 then v else MeaningOfAll(steps[1..], Meaning(steps[0], v))
  }

  lemma {:induction false} RunsRefine(s: Ext, steps: seq<Step>, t: Ext)
    requires Inv(s) && Runs(s, steps, t)
    ensures Inv(t) && Shared(t) == MeaningOfAll(steps, Shared(s))
    decreases |steps|
  {
    if |steps| > 0 {
      StepRefines(s, steps[0]);
      StepKept(s, steps[0]);
      RunsRefine(Apply(s, steps[0]), steps[1..], t);
    }
  }

  /** Cache coherence: a get done while holding the lock sees exactly what the puts and removes of all clients so far
      leave behind, never an overwritten or removed value. The status tells presence except on a first miss. */
  lemma GetSeesTheLatestPut(s0: Ext, steps: seq<Step>, s: Ext, c: Client, h: Thread, buf: string)
    requires Init(s0) && Runs(s0, steps, s) && Enabled(s, Get(c, h, buf))
    ensures var (_, status, out) := GetEntry(Cached(s, c), s.disk, buf);
            var latest := MeaningOfAll(steps, None);
            && (latest.Some? ==> status == OK && out == latest.value)
            && (latest.None? ==> if c in s.cache then status == NOENT && out == buf else status == OK && out == "")
  {
    L.InitOk(s0.lock);
    RunsRefine(s0, steps, s);
    HolderMayCache(s, c, h);
    SharedForOwner(s, c);
  }

  /** The status of a get tells whether the extent exists if and only if the extent exists or is already cached;
      a first miss on a missing extent answers OK. */
  lemma StatusIsRightExactlyWhen(s: Ext, c: Client, h: Thread, buf: string)
    requires Inv(s) && Enabled(s, Get(c, h, buf))
    ensures ((GetEntry(Cached(s, c), s.disk, buf).1 == OK) == Shared(s).Some?) <==> (c in s.cache || s.disk.Some?)
  {
    HolderMayCache(s, c, h);
    SharedForOwner(s, c);
  }

  /** Should the server execute an old put or remove again, which leaves d as its record, the clients notice nothing if
      and only if the record already was d or some client holds a dirty entry, which its flush writes over d. */
  lemma ReplayIsHarmlessExactlyWhen(s: Ext, d: Option<string>)
    requires Inv(s)
    ensures Inv(s.(disk := d)) && Shared(s.(disk := d)) == Shared(s) <==>
            d == s.disk || exists c :: c in s.cache && s.cache[c].isDirty
  {
    var t := s.(disk := d);
    if c :| c in s.cache {
      SharedIs(s, c);
      forall b | b in s.cache
        ensures b == c
      {
        OneCache(s, b, c);
      }
      assert EntryOk(s, s.cache[c]);
      if s.cache[c].isDirty {
        assert Inv(t);
        SharedIs(t, c);
      }
    }
  }

  /** When no client has the lock cached, the server's record is the latest value: nothing is lost on release. */
  lemma ReleasedValueIsOnTheServer(s0: Ext, steps: seq<Step>, s: Ext)
    requires Init(s0) && Runs(s0, steps, s)
    requires forall c :: c in s.lock.cli ==> !MayCache(s.lock.cli[c])
    ensures s.disk == MeaningOfAll(steps, None)
  {
    L.InitOk(s0.lock);
    RunsRefine(s0, steps, s);
    assert forall c :: c !in s.cache;
  }
}

/** All extents together: many locks, many caches and the server's table refine one sequential map. */
module ExtentMap {
  import opened Wrappers
  import opened LockSpec
  import E = ExtentSystem

  type Id = nat

  datatype Step = At(id: Id, st: E.Step)

  predicate Enabled(w: map<Id, E.Ext>, x: Step) {
    x.id in w && E.Enabled(w[x.id], x.st)
  }

  function Apply(w: map<Id, E.Ext>, x: Step): map<Id, E.Ext>
    requires Enabled(w, x)
  {
    w[x.id := E.Apply(w[x.id], x.st)]
  }

  ghost predicate Runs(w: map<Id, E.Ext>, xs: seq<Step>, u: map<Id, E.Ext>)
    decreases |xs|
  {
    if |xs| == 0 then w == u
    else Enabled(w, xs[0]) && Runs(Apply(w, xs[0]), xs[1..], u)
  }

  ghost predicate Inv(w: map<Id, E.Ext>) {
    forall id {:trigger E.Inv(w[id])} :: id in w ==> E.Inv(w[id])
  }

  /** The files as one map from extent id to content. */
  ghost function Files(w: map<Id, E.Ext>): map<Id, string> {
    map id | id in w && E.Shared(w[id]).Some? :: E.Shared(w[id]).value
  }

  function Meaning(x: Step, m: map<Id, string>): map<Id, string> {
    match x.st
    case Put(_, _, buf) => m[x.id := buf]
    case Remove(_, _) => m - {x.id}
    case _ => m
  }

  function MeaningOfAll(xs: seq<Step>, m: map<Id, string>): map<Id, string> {
    if |xs| == 0 then m else MeaningOfAll(xs[1..], Meaning(xs[0], m))
  }

  lemma FilesStep(w: map<Id, E.Ext>, x: Step, e: E.Ext)
    requires x.id in w && E.Shared(e) == E.Meaning(x.st, E.Shared(w[x.id]))
    ensures Files(w[x.id := e]) == Meaning(x, Files(w))
  {
  }

  lemma InvStep(w: map<Id, E.Ext>, id: Id, e: E.Ext)
    requires Inv(w) && E.Inv(e)
    ensures Inv(w[id := e])
  {
  }

  lemma StepRefines(w: map<Id, E.Ext>, x: Step)
    requires Inv(w) && Enabled(w, x)
    ensures Inv(Apply(w, x)) && Files(Apply(w, x)) == Meaning(x, Files(w))
  {
    assert E.Inv(w[x.id]);
    E.StepRefines(w[x.id], x.st);
    E.StepKept(w[x.id], x.st);
    FilesStep(w, x, E.Apply(w[x.id], x.st));
    InvStep(w, x.id, E.Apply(w[x.id], x.st));
  }

  lemma {:induction false} RunsRefine(w: map<Id, E.Ext>, xs: seq<Step>, u: map<Id, E.Ext>)
    requires Inv(w) && Runs(w, xs, u)
    ensures Inv(u) && Files(u) == MeaningOfAll(xs, Files(w))
    decreases |xs|
  {
    if |xs| > 0 {
      StepRefines(w, xs[0]);
      RunsRefine(Apply(w, xs[0]), xs[1..], u);
    }
  }

  /** Starting from empty caches and an empty server, any run of any number of clients leaves the map that its
      puts and removes, taken in order, make. */
  lemma ManyCachesOneMap(w: map<Id, E.Ext>, xs: seq<Step>, u: map<Id, E.Ext>)
    requires (forall id :: id in w ==> E.Init(w[id])) && Runs(w, xs, u)
    ensures Files(u) == MeaningOfAll(xs, map[])
  {
    forall id | id in w
      ensures E.Inv(w[id]) && E.Shared(w[id]).None?
    {
      E.L.InitOk(w[id].lock);
    }
    assert Files(w) == map[];
    RunsRefine(w, xs, u);
  }
}
