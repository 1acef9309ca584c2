/** Proposal numbers: a counter and the proposer's name, compared counter first. */
module PropNumbers {

  datatype Prop = Prop(n: nat, m: string)

  /** The order std::string uses: lexicographic, a proper prefix first. */
  predicate StrLess(a: string, b: string) {
    if |b| == 0 then false
    else if |a| == 0 then true
    else if a[0] != b[0] then a[0] < b[0]
    else StrLess(a[1..], b[1..])
  }

  predicate Gt(a: Prop, b: Prop) {
    a.n > b.n || (a.n == b.n && StrLess(b.m, a.m))
  }

  predicate Ge(a: Prop, b: Prop) {
    a.n > b.n || (a.n == b.n && !StrLess(a.m, b.m))
  }

  lemma {:induction false} StrLessTrichotomy(a: string, b: string)
    ensures !(StrLess(a, b) && StrLess(b, a))
    ensures StrLess(a, b) || StrLess(b, a) || a == b
    ensures a == b ==> !StrLess(a, b)
  {
    if |a| > 0 && |b| > 0 && a[0] == b[0] {
      StrLessTrichotomy(a[1..], b[1..]);
      assert a == [a[0]] + a[1..] && b == [b[0]] + b[1..];
    }
  }

  lemma {:induction false} StrLessTransitive(a: string, b: string, c: string)
    requires StrLess(a, b) && StrLess(b, c)
    ensures StrLess(a, c)
  {
    if |a| > 0 && a[0] == b[0] && b[0] == c[0] {
      StrLessTransitive(a[1..], b[1..], c[1..]);
    }
  }

  /** `>` is a strict total order and `>=` is its reflexive closure. */
  lemma GtTotalOrder(a: Prop, b: Prop, c: Prop)
    ensures Gt(a, b) && Gt(b, c) ==> Gt(a, c)
    ensures Gt(a, b) || Gt(b, a) || a == b
    ensures !(Gt(a, b) && Gt(b, a)) && !Gt(a, a)
    ensures Ge(a, b) <==> Gt(a, b) || a == b
  {
    StrLessTrichotomy(a.m, b.m);
    StrLessTrichotomy(a.m, a.m);
    if StrLess(c.m, b.m) && StrLess(b.m, a.m) {
      StrLessTransitive(c.m, b.m, a.m);
    }
  }

  /** At the first position where they differ a has the smaller character, or a ends there. */
  ghost predicate Precedes(a: string, b: string) {
    exists k: nat :: k <= |a| && k < |b| && a[..k] == b[..k] && (k == |a| || a[k] < b[k])
  }

  lemma {:induction false} StrLessIsPrecedes(a: string, b: string)
    ensures StrLess(a, b) <==> Precedes(a, b)
  {
    if |a| == 0 && |b| > 0 {
      assert a[..0] == b[..0];
    } else if |a| > 0 && |b| > 0 && a[0] == b[0] {
      StrLessIsPrecedes(a[1..], b[1..]);
      if Precedes(a[1..], b[1..]) {
        var k: nat :| k <= |a[1..]| && k < |b[1..]| && a[1..][..k] == b[1..][..k]
                      && (k == |a[1..]| || a[1..][k] < b[1..][k]);
        assert a[..k + 1] == [a[0]] + a[1..][..k] && b[..k + 1] == [b[0]] + b[1..][..k];
      }
      if Precedes(a, b) {
        var k: nat :| k <= |a| && k < |b| && a[..k] == b[..k] && (k == |a| || a[k] < b[k]);
        assert k > 0 && a[1..][..k - 1] == a[..k][1..] && b[1..][..k - 1] == b[..k][1..];
      }
    } else if |a| > 0 && |b| > 0 {
      assert a[..0] == b[..0];
      assert forall k :: 0 < k <= |a| && k < |b| ==> a[..k][0] == a[0] && b[..k][0] == b[0];
    }
  }

  /** The larger counter wins; with equal counters the name that comes later in the dictionary does. */
  lemma GtExactlyWhen(a: Prop, b: Prop)
    ensures Gt(a, b) <==> a.n > b.n || (a.n == b.n && Precedes(b.m, a.m))
    ensures Ge(a, b) <==> Gt(a, b) || a == b
  {
    StrLessIsPrecedes(b.m, a.m);
    GtTotalOrder(a, b, a);
  }
}
