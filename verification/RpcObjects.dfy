/** The client's list of received xids and the server's lists of remembered replies, updated in place. */
module RpcObjects {
  import opened Wrappers
  import opened RpcSpec

  /** The list is ordered, starts with the front, and above it holds exactly what was received; repeats may stay. */
  ghost predicate Represents(w: seq<nat>, received: set<nat>) {
    && |w| > 0 && (forall i, j :: 0 <= i <= j < |w| ==> w[i] <= w[j])
    && (forall i :: 1 <= i <= w[0] ==> i in received)
    && (forall x :: x in received && x > w[0] ==> x in w)
    && (forall x :: x in w && x > w[0] ==> x in received)
  }

  /** Nothing in the list continues its front. */
  ghost predicate Compressed(w: seq<nat>) {
    |w| > 0 && w[0] + 1 !in w
  }

  /** An ordered list in which the front is not continued starts with the greatest k such that 1..k are received. */
  lemma FrontIsFirst(w: seq<nat>, received: set<nat>)
    requires Represents(w, received) && Compressed(w)
    ensures IsFront(received, w[0])
  {
  }

  lemma InsertKeeps(w: seq<nat>, received: set<nat>, i: nat, x: nat)
    requires Represents(w, received) && 0 < i <= |w| && x > w[0]
    requires (forall j :: 0 <= j < i ==> w[j] <= x) && (i < |w| ==> x < w[i])
    ensures Represents(w[..i] + [x] + w[i..], received + {x})
  {
  }

  /** Dropping the first element when a later one continues it. */
  lemma PopKeeps(w: seq<nat>, received: set<nat>, i: nat)
    requires Represents(w, received) && 0 < i < |w| && w[i] == w[0] + 1
    ensures Represents(w[1..], received)
  {
  }

  class ClientWindow {
    var window: seq<nat>           // xid_rep_window_
    ghost var received: set<nat>

    ghost predicate Valid()
      reads this
    {
      Represents(window, received) && Compressed(window)
    }

    constructor ()
      ensures Valid() && received == {} && window == [0]
    {
      window := [0];
      received := {};
    }

    /** What a request header carries as xid_rep. */
    method Front() returns (k: nat)
      requires Valid()
      ensures IsFront(received, k)
    {
      FrontIsFirst(window, received);
      k := window[0];
    }

    /** update_xid_rep refines adding to a set, also when an xid is reported twice. */
    method UpdateXidRep(xid: nat)
      requires Valid()
      modifies this
      ensures Valid() && (xid > 0 ==> received == old(received) + {xid}) && (xid == 0 ==> received == old(received))
    {
      if xid <= window[0] {
        assert xid > 0 ==> received + {xid} == received;
        return;
      }
      var i := 0;
      while i < |window| && window[i] <= xid
        invariant 0 <= i <= |window|
        invariant forall j :: 0 <= j < i ==> window[j] <= xid
      {
        i := i + 1;
      }
      InsertKeeps(window, received, i, xid);
      window := window[..i] + [xid] + window[i..];
      received := received + {xid};
      Compress();
    }

    /** The compress loop: `it` is the position of the source's iterator, counted from the current front. */
    method Compress()
      requires Represents(window, received) && |window| > 1
      modifies this`window
      ensures Valid()
    {
      var it := 1;
      while it < |window|
        invariant 1 <= it <= |window| && Represents(window, received)
        invariant forall j :: 0 <= j < it ==> window[j] != window[0] + 1
        decreases |window| - it
      {
        ghost var cur, left, popped := window[it], |window| - it, false;
        while window[0] + 1 == window[it]
          invariant 0 <= it < |window| && |window| - it == left && Represents(window, received) && window[it] == cur
          invariant !popped ==> it >= 1 && forall j :: 0 <= j < it ==> window[j] != window[0] + 1
          invariant popped ==> window[0] <= cur <= window[0] + 1 && forall j :: 0 <= j < it ==> window[j] < cur
          decreases it
        {
          assert it > 0;  // the element the iterator points at is never popped
          PopKeeps(window, received, it);
          window := window[1..];
          it := it - 1;
          popped := true;
        }
        it := it + 1;
      }
    }
  }

  // ---- the server's side ----

  class ReplyWindow {
    var replies: map<nat, seq<Rep>>   // reply_window_, one list per client nonce

    ghost predicate Valid()
      reads this
    {
      forall n :: n in replies ==> Ascending(replies[n])
    }

    constructor ()
      ensures Valid() && replies == map[]
    {
      replies := map[];
    }

    /** dispatch creates an empty list for a client it has not seen. */
    method Register(nonce: nat)
      requires Valid()
      modifies this
      ensures Valid() && nonce in replies
      ensures replies == if nonce in old(replies) then old(replies) else old(replies)[nonce := []]
    {
      if nonce !in replies {
        replies := replies[nonce := []];
      }
    }

    /** The loop that erases what the client has acknowledged. */
    static method EraseAcked(w0: seq<Rep>, xidRep: nat) returns (w: seq<Rep>)
      ensures w == DropAcked(w0, xidRep)
    {
      w := w0;
      while |w| > 0 && xidRep >= w[0].xid
        invariant DropAcked(w0, xidRep) == DropAcked(w, xidRep)
        decreases |w|
      {
        w := w[1..];
      }
    }

    /** The loop that looks for xid. */
    static method Search(w: seq<Rep>, xid: nat) returns (k: nat)
      ensures k == Find(w, xid)
    {
      k := 0;
      while k < |w| && w[k].xid != xid
        invariant k <= |w| && Find(w, xid) == k + Find(w[k..], xid)
        decreases |w| - k
      {
        assert w[k..][1..] == w[k + 1..];
        k := k + 1;
      }
    }

    /** The loop that finds the place of a new xid. */
    static method Place(w: seq<Rep>, xid: nat) returns (i: nat)
      ensures i == Smaller(w, xid)
    {
      i := 0;
      while i < |w| && w[i].xid < xid
        invariant i <= |w| && Smaller(w, xid) == i + Smaller(w[i..], xid)
        decreases |w| - i
      {
        assert w[i..][1..] == w[i + 1..];
        i := i + 1;
      }
    }

    /** checkduplicate_and_update: erase acknowledged entries, look for xid, else insert it in order. */
    method CheckDuplicateAndUpdate(nonce: nat, xid: nat, xidRep: nat) returns (verdict: Verdict)
      requires Valid() && nonce in replies
      modifies this
      ensures Valid()
      ensures var (w, v) := Check(old(replies)[nonce], xid, xidRep);
              verdict == v && replies == old(replies)[nonce := w]
    {
      CheckKeeps(replies[nonce], xid, xidRep);
      var w := EraseAcked(replies[nonce], xidRep);
      replies := replies[nonce := w];
      var k := Search(w, xid);
      if k < |w| {
        verdict := if w[k].reply.Some? then DONE(w[k].reply.value) else INPROGRESS;
      } else if |w| > 0 && xid < w[0].xid && xid < xidRep {
        verdict := FORGOTTEN;
      } else {
        var i := Place(w, xid);
        replies := replies[nonce := w[..i] + [Rep(xid, None)] + w[i..]];
        verdict := NEW;
      }
    }

    /** add_reply: fills in every entry with this xid. */
    method AddReply(nonce: nat, xid: nat, reply: string)
      requires Valid() && nonce in replies
      modifies this
      ensures Valid() && replies == old(replies)[nonce := Replied(old(replies)[nonce], xid, reply)]
    {
      var w := replies[nonce];
      ghost var w0 := w;
      RepliedKeeps(w0, xid, reply);
      for i := 0 to |w|
        invariant |w| == |w0|
        invariant forall j :: 0 <= j < i ==> w[j] == Replied(w0, xid, reply)[j]
        invariant forall j :: i <= j < |w| ==> w[j] == w0[j]
      {
        if w[i].xid == xid {
          w := w[i := Rep(xid, Some(reply))];
        }
      }
      assert w == Replied(w0, xid, reply);
      replies := replies[nonce := w];
    }
  }
}
