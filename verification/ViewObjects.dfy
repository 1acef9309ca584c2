/** View management: the config object that turns views into Paxos values and back, and the object that keeps the
    primary. */
module ViewObjects {
  import opened PrimarySpec
  import opened Views

  lemma {:induction false} ValueSnoc(m: seq<string>, w: string)
    ensures Value(m + [w]) == Value(m) + (w + " ")
  {
    if |m| == 0 {
      assert Value([w]) == w + " " + Value([]);
    } else {
      ValueSnoc(m[1..], w);
      assert (m + [w])[1..] == m[1..] + [w];
      assert m[0] + " " + (Value(m[1..]) + (w + " ")) == (m[0] + " " + Value(m[1..])) + (w + " ");
    }
  }

  class Config {
    const me: string
    const vc: Rsm?                // whom to tell about new views
    var mems: seq<string>
    var myvid: nat

    /** Members are words, so every view can be written and read back. */
    ghost predicate Valid()
      reads this
    {
      forall w :: w in mems ==> IsWord(w)
    }

    constructor (me: string, vc: Rsm?)
      ensures Valid() && this.me == me && this.vc == vc && mems == [] && myvid == 0
    {
      this.me, this.vc := me, vc;
      mems, myvid := [], 0;
    }

    static method ReadMembers(value: string) returns (view: seq<string>)
      ensures view == Members(value)
    {
      view := [];
      var rest := value;
      while |rest| > 0
        invariant Members(value) == view + Members(rest)
        decreases |rest|
      {
        if IsSpace(rest[0]) {
          rest := rest[1..];
        } else {
          var k := WordLen(rest);
          assert k > 0;
          assert view + ([rest[..k]] + Members(rest[k..])) == (view + [rest[..k]]) + Members(rest[k..]);
          view := view + [rest[..k]];
          rest := rest[k..];
        }
      }
      assert view + [] == view;
    }

    static method WriteValue(m: seq<string>) returns (text: string)
      ensures text == Value(m)
    {
      text := "";
      for i := 0 to |m|
        invariant text == Value(m[..i])
      {
        ValueSnoc(m[..i], m[i]);
        assert m[..i + 1] == m[..i] + [m[i]];
        text := text + (m[i] + " ");
      }
      assert m[..|m|] == m;
    }

    /** `add`: the arguments it passes to the proposer. Reading the proposed value gives the view plus newM. */
    method Add(newM: string) returns (instance: nat, nodes: seq<string>, v: string)
      requires Valid() && IsWord(newM)
      ensures instance == myvid + 1 && nodes == mems && Members(v) == mems + [newM] && v != ""
      ensures v == Value(mems + [newM])
    {
      v := WriteValue(mems + [newM]);
      MembersOfValue(mems + [newM]);
      instance, nodes := myvid + 1, mems;
    }

    /** `remove_wo`: the value proposed is the view without m; it is empty exactly when m was the only member. */
    method RemoveWo(m: string) returns (instance: nat, nodes: seq<string>, v: string)
      requires Valid()
      ensures instance == myvid + 1 && nodes == mems && Members(v) == Without(mems, m)
      ensures v == Value(Without(mems, m))
      ensures v == "" <==> forall w :: w in mems ==> w == m
    {
      var n: seq<string> := [];
      for i := 0 to |mems|
        invariant n == Without(mems[..i], m)
      {
        assert mems[..i + 1][..i] == mems[..i];
        if mems[i] != m {
          n := n + [mems[i]];
        }
      }
      assert mems[..|mems|] == mems;
      WithoutIs(mems, m);
      MembersOfValue(n);
      v := WriteValue(n);
      assert n == [] <==> forall w :: w in mems ==> w == m by {
        assert n != [] ==> n[0] in n;
      }
      instance, nodes := myvid + 1, mems;
    }

    /** The acceptor's upcall, up to where it releases the mutex. dropped are the members whose handles are deleted, in
        order; with notify the view layer is told next. */
    method PaxosCommit(instance: nat, value: string) returns (dropped: seq<string>, notify: bool)
      modifies this
      ensures Valid() && mems == Members(value) && myvid == instance
      ensures dropped == Gone(old(mems), Members(value), me) && notify == (vc != null)
    {
      MembersAreWords(value);
      var newMem := ReadMembers(value);
      dropped := [];
      for i := 0 to |mems|
        invariant dropped == Gone(mems[..i], newMem, me)
      {
        assert mems[..i + 1][..i] == mems[..i];
        if mems[i] !in newMem && me != mems[i] {
          dropped := dropped + [mems[i]];
        }
      }
      assert mems[..|mems|] == mems;
      mems := newMem;
      myvid := instance;
      notify := vc != null;
    }

    /** The view layer's part. It reads the values of the current and of the previous view and then the view number,
        each at a moment of its own, so these are parameters; ok is false where the choice of the primary stops the
        process. */
    method Notify(current: string, previous: string, vid: nat) returns (ok: bool)
      requires vc != null
      modifies vc
      ensures ok == old(CanChoose(vc.primary, Members(current), Members(previous)))
      ensures vc.primary ==
              if ok then NextPrimary(old(vc.primary), Members(current), Members(previous)) else old(vc.primary)
      ensures ok && vc.primary == vc.me ==> vc.lastVid == vid && vc.myVid == vid
    {
      var c := ReadMembers(current);
      var p := ReadMembers(previous);
      ok := vc.CommitChange(c, p, vid);
    }
  }

  /** The members of l that left for c, me excepted. */
  function Gone(l: seq<string>, c: seq<string>, me: string): seq<string> {
    if |l| == 0 then []
    else Gone(l[..|l| - 1], c, me) + if l[|l| - 1] !in c && me != l[|l| - 1] then [l[|l| - 1]] else []
  }

  /** Handles are deleted for exactly the other nodes that are no longer members. */
  lemma {:induction false} GoneIs(l: seq<string>, c: seq<string>, me: string)
    ensures forall w :: w in Gone(l, c, me) <==> w in l && w !in c && w != me
  {
    if |l| > 0 {
      GoneIs(l[..|l| - 1], c, me);
      assert l == l[..|l| - 1] + [l[|l| - 1]];
    }
  }

  /** In the order of the old view. */
  lemma {:induction false} GoneConcat(a: seq<string>, b: seq<string>, c: seq<string>, me: string)
    ensures Gone(a + b, c, me) == Gone(a, c, me) + Gone(b, c, me)
  {
    if |b| == 0 {
      assert a + b == a;
    } else {
      var last := b[|b| - 1];
      assert (a + b)[..|a + b| - 1] == a + b[..|b| - 1] && (a + b)[|a + b| - 1] == last;
      GoneConcat(a, b[..|b| - 1], c, me);
    }
  }

  class Rsm {
    const me: string
    var primary: string
    var insync: bool
    var lastVid: nat              // last_myvs.vid
    var myVid: nat                // myvs.vid

    constructor (first: string, me: string)
      ensures this.me == me && primary == first && lastVid == 0 && myVid == 0 && !insync
    {
      this.me := me;
      primary, insync, lastVid, myVid := first, false, 0, 0;
    }

    /** `set_primary`; false where the source asserts: no member of the previous view is left. */
    method SetPrimary(c: seq<string>, p: seq<string>) returns (ok: bool)
      modifies this`primary
      ensures ok <==> CanChoose(old(primary), c, p)
      ensures primary == if ok then NextPrimary(old(primary), c, p) else old(primary)
    {
      FirstInIs(p, c);
      if primary in c {
        return true;
      }
      for i := 0 to |p|
        invariant FirstIn(p, c) == FirstIn(p[i..], c)
        invariant forall j :: 0 <= j < i ==> p[j] !in c
        invariant primary == old(primary)
      {
        if p[i] in c {
          assert p[i] in p;
          primary := p[i];
          return true;
        }
        assert p[i..][1..] == p[i + 1..];
      }
      return false;
    }

    /** `commit_change`: only the primary takes the new view number; the number of backups is stored in a bool. */
    method CommitChange(c: seq<string>, p: seq<string>, vid: nat) returns (ok: bool)
      modifies this
      ensures ok <==> CanChoose(old(primary), c, p)
      ensures ok ==> primary == NextPrimary(old(primary), c, p)
      ensures ok && primary == me ==> lastVid == vid && myVid == vid && insync == (|c| != 1)
      ensures !(ok && primary == me) ==> lastVid == old(lastVid) && myVid == old(myVid) && insync == old(insync)
      ensures !ok ==> primary == old(primary)
    {
      ok := SetPrimary(c, p);
      if ok && me == primary {
        insync := |c| - 1 != 0;
        lastVid := vid;
        myVid := lastVid;
      }
    }
  }

  /** The views that add and remove_wo propose share a member with the old one: always for add to a non-empty view,
      and for a removal exactly when another member remains. */
  lemma ProposedViewsShare(mems: seq<string>, m: string)
    ensures mems != [] ==> Share(mems + [m], mems)
    ensures Share(Without(mems, m), mems) <==> exists w :: w in mems && w != m
  {
    WithoutIs(mems, m);
    if mems != [] {
      assert mems[0] in mems && mems[0] in mems + [m];
    }
  }
}
