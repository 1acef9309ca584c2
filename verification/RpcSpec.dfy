/** The two windows of the RPC layer as values: what the client has received, what the server still remembers. */
module RpcSpec {
  import opened Wrappers

  // ---- the client's window ----

  /** k is the greatest number with 1..k all received. */
  ghost predicate IsFront(received: set<nat>, k: nat) {
    (forall i :: 1 <= i <= k ==> i in received) && k + 1 !in received
  }

  lemma FrontIsUnique(received: set<nat>, k: nat, l: nat)
    requires IsFront(received, k) && IsFront(received, l)
    ensures k == l
  {
  }

  // ---- the server's window for one client ----

  /** A remembered request; the reply is there once the handler is done. */
  datatype Rep = Rep(xid: nat, reply: Option<string>)

  datatype Verdict = NEW | INPROGRESS | DONE(reply: string) | FORGOTTEN

  predicate Ascending(w: seq<Rep>) {
    forall i, j :: 0 <= i < j < |w| ==> w[i].xid < w[j].xid
  }

  /** xid has an entry. */
  ghost predicate Remembers(w: seq<Rep>, xid: nat) {
    exists r: Rep :: r in w && r.xid == xid
  }

  /** Erase the entries the client has acknowledged. */
  function DropAcked(w: seq<Rep>, xidRep: nat): seq<Rep> {
    if |w| > 0 && xidRep >= w[0].xid then DropAcked(w[1..], xidRep) else w
  }

  /** Position of xid, or the length. */
  function Find(w: seq<Rep>, xid: nat): (k: nat)
    ensures k <= |w| && (k < |w| ==> w[k].xid == xid)
    ensures forall i :: 0 <= i < k ==> w[i].xid != xid
  {
    if |w| == 0 || w[0].xid == xid then 0 else 1 + Find(w[1..], xid)
  }

  /** How many leading entries are below xid. */
  function Smaller(w: seq<Rep>, xid: nat): (k: nat)
    ensures k <= |w| && (k < |w| ==> w[k].xid >= xid)
    ensures forall i :: 0 <= i < k ==> w[i].xid < xid
  {
    if |w| == 0 || w[0].xid >= xid then 0 else 1 + Smaller(w[1..], xid)
  }

  function Inserted(w: seq<Rep>, xid: nat): seq<Rep> {
    w[..Smaller(w, xid)] + [Rep(xid, None)] + w[Smaller(w, xid)..]
  }

  /** checkduplicate_and_update. */
  function Check(w0: seq<Rep>, xid: nat, xidRep: nat): (seq<Rep>, Verdict) {
    var w := DropAcked(w0, xidRep);
    var k := Find(w, xid);
    if k < |w| then (w, if w[k].reply.Some? then DONE(w[k].reply.value) else INPROGRESS)
    else if |w| > 0 && xid < w[0].xid && xid < xidRep then (w, FORGOTTEN)
    else (Inserted(w, xid), NEW)
  }

  /** add_reply. */
  function Replied(w: seq<Rep>, xid: nat, reply: string): seq<Rep> {
    seq(|w|, i requires 0 <= i < |w| => if w[i].xid == xid then Rep(xid, Some(reply)) else w[i])
  }

  lemma {:induction false} DropAckedIs(w: seq<Rep>, xidRep: nat)
    requires Ascending(w)
    ensures var u := DropAcked(w, xidRep);
            && Ascending(u) && |u| <= |w| && u == w[|w| - |u|..]
            && (forall i :: 0 <= i < |u| ==> u[i].xid > xidRep)
            && (forall i :: 0 <= i < |w| - |u| ==> w[i].xid <= xidRep)
  {
    if |w| > 0 && xidRep >= w[0].xid {
      DropAckedIs(w[1..], xidRep);
      var u := DropAcked(w[1..], xidRep);
      assert w[1..][|w| - 1 - |u|..] == w[|w| - |u|..];
      forall i | 0 <= i < |w| - |u|
        ensures w[i].xid <= xidRep
      {
        if i > 0 {
          assert w[i] == w[1..][i - 1];
        }
      }
    }
  }

  lemma DropAckedMembers(w: seq<Rep>, xidRep: nat)
    requires Ascending(w)
    ensures Ascending(DropAcked(w, xidRep))
    ensures forall r: Rep :: r in DropAcked(w, xidRep) <==> r in w && r.xid > xidRep
  {
  }

  /** What a check leaves: the entries above the acknowledgement and the new one, and a verdict that fits them. */
  ghost predicate CheckFacts(w: seq<Rep>, xid: nat, xidRep: nat, u: seq<Rep>, verdict: Verdict) {
    && Ascending(u)
    && (forall r: Rep :: r in u <==> (r in w && r.xid > xidRep) || (verdict == NEW && r == Rep(xid, None)))
    && (verdict == NEW ==> forall r: Rep :: r in w && r.xid > xidRep ==> r.xid != xid)
    && (verdict.DONE? ==> Rep(xid, Some(verdict.reply)) in w)
    && (verdict == INPROGRESS ==> Rep(xid, None) in w)
    && (verdict == FORGOTTEN ==> xid < xidRep)
  }

  lemma CheckKeeps(w: seq<Rep>, xid: nat, xidRep: nat)
    requires Ascending(w)
    ensures CheckFacts(w, xid, xidRep, Check(w, xid, xidRep).0, Check(w, xid, xidRep).1)
  {
    DropAckedMembers(w, xidRep);
    var d := DropAcked(w, xidRep);
    if Find(d, xid) == |d| {
      InsertedAscends(d, xid);
      forall r: Rep
        ensures r in Inserted(d, xid) <==> r in d || r == Rep(xid, None)
      {
        InsertedMembers(d, xid, r);
      }
    }
  }

  lemma InsertedMembers(w: seq<Rep>, xid: nat, r: Rep)
    ensures r in Inserted(w, xid) <==> r in w || r == Rep(xid, None)
  {
  }

  lemma SpliceAscends(w: seq<Rep>, k: nat, r: Rep)
    requires Ascending(w) && k <= |w| && (k > 0 ==> w[k - 1].xid < r.xid) && (k < |w| ==> r.xid < w[k].xid)
    ensures Ascending(w[..k] + [r] + w[k..])
  {
    var u := w[..k] + [r] + w[k..];
    assert forall i :: 0 <= i < |u| ==> u[i] == if i < k then w[i] else if i == k then r else w[i - 1];
  }

  lemma InsertedAscends(w: seq<Rep>, xid: nat)
    requires Ascending(w) && Find(w, xid) == |w|
    ensures Ascending(Inserted(w, xid))
  {
    hide Ascending;
    SpliceAscends(w, Smaller(w, xid), Rep(xid, None));
  }

  lemma RepliedKeeps(w: seq<Rep>, xid: nat, reply: string)
    requires Ascending(w)
    ensures Ascending(Replied(w, xid, reply))
    ensures forall r: Rep :: r.xid != xid ==> (r in Replied(w, xid, reply) <==> r in w)
    ensures forall r: Rep :: r.xid == xid && r in Replied(w, xid, reply) ==> r.reply == Some(reply)
    ensures Remembers(Replied(w, xid, reply), xid) <==> Remembers(w, xid)
  {
    var u := Replied(w, xid, reply);
    assert forall i :: 0 <= i < |w| ==> u[i].xid == w[i].xid;
    forall i | 0 <= i < |w|
      ensures w[i].xid != xid ==> w[i] in u
      ensures w[i].xid == xid ==> Rep(xid, Some(reply)) in u
    {
      assert u[i] in u;
    }
    forall i | 0 <= i < |u| && u[i].xid == xid
      ensures Remembers(w, xid)
    {
      assert w[i] in w;
    }
  }

  // ---- when an xid is new again ----

  datatype Event = Request(xid: nat, xidRep: nat) | AddReply(xid: nat, reply: string)

  function After(w: seq<Rep>, e: Event): seq<Rep> {
    match e
    case Request(x, r) => Check(w, x, r).0
    case AddReply(x, reply) => Replied(w, x, reply)
  }

  function AfterAll(w: seq<Rep>, es: seq<Event>): seq<Rep>
    decreases |es|
  {
    if |es| == 0 then w else AfterAll(After(w, es[0]), es[1..])
  }

  /** Some request among es acknowledges xid. */
  predicate Acks(es: seq<Event>, xid: nat) {
    exists e :: e in es && e.Request? && e.xidRep >= xid
  }

  lemma RememberedAfterOne(w: seq<Rep>, e: Event, xid: nat)
    requires Ascending(w) && (e.Request? ==> e.xid != xid)
    ensures Ascending(After(w, e))
    ensures Remembers(After(w, e), xid) <==> Remembers(w, xid) && !(e.Request? && e.xidRep >= xid)
  {
    var u := After(w, e);
    if e.Request? {
      CheckKeeps(w, e.xid, e.xidRep);
    } else {
      RepliedKeeps(w, e.xid, e.reply);
    }
  }

  lemma {:induction false} RememberedUntilAcked(w: seq<Rep>, es: seq<Event>, xid: nat)
    requires Ascending(w) && forall e :: e in es && e.Request? ==> e.xid != xid
    ensures Ascending(AfterAll(w, es))
    ensures Remembers(AfterAll(w, es), xid) <==> Remembers(w, xid) && !Acks(es, xid)
    decreases |es|
  {
    if |es| > 0 {
      assert es[0] in es && es == [es[0]] + es[1..];
      RememberedAfterOne(w, es[0], xid);
      RememberedUntilAcked(After(w, es[0]), es[1..], xid);
    }
  }

  /** After xid was NEW, its next request is NEW again if and only if an acknowledgement of xid arrived in between.
      The headers clients send have xidRep < xid. */
  lemma NewAgainExactlyWhenAcked(w: seq<Rep>, xid: nat, r1: nat, es: seq<Event>, r2: nat)
    requires Ascending(w) && Check(w, xid, r1).1 == NEW && r2 < xid
    requires forall e :: e in es && e.Request? ==> e.xid != xid
    ensures Check(AfterAll(Check(w, xid, r1).0, es), xid, r2).1 == NEW <==> Acks(es, xid)
  {
    var u := Check(w, xid, r1).0;
    CheckKeeps(w, xid, r1);
    assert Rep(xid, None) in u;
    RememberedUntilAcked(u, es, xid);
    var v := AfterAll(u, es);
    CheckKeeps(v, xid, r2);
    var verdict := Check(v, xid, r2).1;
    if verdict.DONE? {
      assert Rep(xid, Some(verdict.reply)) in v;
    }
  }

  /** The FORGOTTEN answer needs a header that acknowledges more than it asks for. */
  lemma ForgottenNeedsALargerAck(w: seq<Rep>, xid: nat, xidRep: nat)
    requires xidRep <= xid
    ensures Check(w, xid, xidRep).1 != FORGOTTEN
  {
  }

  // ---- every verdict, from the entries and the header alone ----

  lemma FindMisses(w: seq<Rep>, xid: nat)
    requires Find(w, xid) == |w|
    ensures forall r: Rep :: r in w ==> r.xid != xid
  {
  }

  /** A request above the acknowledgement is DONE with the stored reply, in progress, or new, as its entry says; one at
      or below it has lost its entry, and is forgotten only if it is strictly below and a later entry is still there. */
  lemma VerdictExactlyWhen(w: seq<Rep>, xid: nat, xidRep: nat)
    requires Ascending(w)
    ensures var verdict := Check(w, xid, xidRep).1;
            && (verdict == INPROGRESS <==> xid > xidRep && Rep(xid, None) in w)
            && (forall reply :: verdict == DONE(reply) <==> xid > xidRep && Rep(xid, Some(reply)) in w)
            && (verdict == FORGOTTEN <==> xid < xidRep && exists r: Rep :: r in w && r.xid > xidRep)
            && (verdict == NEW <==> (xid > xidRep && !Remembers(w, xid)) || (xid <= xidRep && verdict != FORGOTTEN))
  {
    DropAckedMembers(w, xidRep);
    CheckKeeps(w, xid, xidRep);
    var d := DropAcked(w, xidRep);
    var k := Find(d, xid);
    if k < |d| {
      assert d[k] in d;
      forall r: Rep | r in w && r.xid == xid
        ensures r == d[k]
      {
        var i :| 0 <= i < |w| && w[i] == r;
        var j :| 0 <= j < |w| && w[j] == d[k];
      }
    } else {
      FindMisses(d, xid);
      if |d| > 0 {
        assert d[0] in d;
      }
      if exists r: Rep :: r in w && r.xid > xidRep {
        var r: Rep :| r in w && r.xid > xidRep;
        assert r in d;
      }
    }
  }

  /** Storing a reply fills in the entry of its xid and no other. */
  lemma ReplyIsStored(w: seq<Rep>, xid: nat, reply: string, r: Rep)
    ensures r in Replied(w, xid, reply) <==>
            if r.xid == xid then r.reply == Some(reply) && Remembers(w, xid) else r in w
  {
    var u := Replied(w, xid, reply);
    if r in w && r.xid != xid {
      var i :| 0 <= i < |w| && w[i] == r;
      assert u[i] == r;
    }
    if Remembers(w, xid) {
      var q: Rep :| q in w && q.xid == xid;
      var i :| 0 <= i < |w| && w[i] == q;
      assert u[i] == Rep(xid, Some(reply));
    }
    if r in u {
      var i :| 0 <= i < |u| && u[i] == r;
      assert w[i] in w;
    }
  }
}
