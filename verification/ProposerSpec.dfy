/** The proposer's pure parts: majorities, its number, and folding prepare answers. */
module ProposerSpec {
  import opened PropNumbers
  import opened AcceptorSpec

  /** How many positions of l1 hold a member of l2. */
  function Hits(l1: seq<string>, l2: seq<string>): nat {
    if |l1| == 0 then 0
    else Hits(l1[..|l1| - 1], l2) + if l1[|l1| - 1] in l2 then 1 else 0
  }

  predicate Majority(l1: seq<string>, l2: seq<string>) {
    Hits(l1, l2) >= |l1| / 2 + 1
  }

  /** Two lists that both hold a majority of l share a member of l, whatever duplicates l has. */
  lemma MajoritiesMeet(l: seq<string>, a: seq<string>, b: seq<string>)
    requires Majority(l, a) && Majority(l, b)
    ensures exists x :: x in l && x in a && x in b
  {
    if forall y :: y in l ==> y !in a || y !in b {
      DisjointHits(l, a, b);
    }
  }

  lemma {:induction false} DisjointHits(l: seq<string>, a: seq<string>, b: seq<string>)
    requires forall y :: y in l ==> y !in a || y !in b
    ensures Hits(l, a) + Hits(l, b) <= |l|
  {
    if |l| > 0 {
      DisjointHits(l[..|l| - 1], a, b);
      assert l[|l| - 1] in l;
    }
  }

  /** Whether a majority exists depends only on which nodes answered. */
  lemma {:induction false} HitsMonotone(l: seq<string>, a: seq<string>, b: seq<string>)
    requires forall y :: y in a ==> y in b
    ensures Hits(l, a) <= Hits(l, b)
  {
    if |l| > 0 {
      HitsMonotone(l[..|l| - 1], a, b);
    }
  }

  /** No answer list is a majority of the empty view. */
  lemma NoMajorityOfNone(a: seq<string>)
    ensures !Majority([], a)
  {
  }

  /** The counter `setn` picks: above the local acceptor's promise and the last number used. */
  function NextCounter(promised: nat, used: nat): nat {
    if promised + 1 > used + 1 then promised + 1 else used + 1
  }

  /** The locals of `prepare`. */
  datatype Prep = Prep(accepts: seq<string>, max: Prop, v: string)

  function EmptyPrep(): Prep {
    Prep([], Prop(0, ""), "")
  }

  /** One answer that is neither lost nor an old-instance reply. */
  function PrepareOne(p: Prep, node: string, res: PrepareRes): Prep {
    match res
    case Promised(nA, vA) =>
      if Gt(nA, p.max) then Prep(p.accepts + [node], nA, vA) else p.(accepts := p.accepts + [node])
    case _ => p
  }

  /** The positions of l whose node answered. */
  ghost function Positions(l: seq<string>, a: seq<string>): set<nat> {
    set i: nat | i < |l| && l[i] in a
  }

  lemma {:induction false} HitsCountPositions(l: seq<string>, a: seq<string>)
    ensures Hits(l, a) == |Positions(l, a)|
  {
    if |l| > 0 {
      var k := l[..|l| - 1];
      HitsCountPositions(k, a);
      assert Positions(l, a) == if l[|l| - 1] in a then Positions(k, a) + {|l| - 1} else Positions(k, a);
    }
  }

  /** A majority is more than half of the positions, for every list and every set of answers. */
  lemma MajorityExactlyWhen(l: seq<string>, a: seq<string>)
    ensures Majority(l, a) <==> 2 * |Positions(l, a)| > |l|
  {
    HitsCountPositions(l, a);
  }

  /** `setn` picks the least counter above both numbers. */
  lemma NextCounterIsTheLeast(promised: nat, used: nat, k: nat)
    ensures NextCounter(promised, used) > promised && NextCounter(promised, used) > used
    ensures k > promised && k > used ==> NextCounter(promised, used) <= k
  {
  }
}
