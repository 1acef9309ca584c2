/** How a node chooses the primary of a view from the one before, and when two nodes choose the same. */
module PrimarySpec {

  /** First member of p that is in c, "" when there is none. */
  function FirstIn(p: seq<string>, c: seq<string>): string {
    if |p| == 0 then "" else if p[0] in c then p[0] else FirstIn(p[1..], c)
  }

  /** The primary after view c follows view p. */
  function NextPrimary(primary: string, c: seq<string>, p: seq<string>): string {
    if primary in c then primary else FirstIn(p, c)
  }

  predicate Share(c: seq<string>, p: seq<string>) {
    exists w :: w in p && w in c
  }

  /** Otherwise the source's last assertion stops the process. */
  predicate CanChoose(primary: string, c: seq<string>, p: seq<string>) {
    primary in c || Share(c, p)
  }

  lemma {:induction false} FirstInIs(p: seq<string>, c: seq<string>)
    ensures Share(c, p) ==> FirstIn(p, c) in p && FirstIn(p, c) in c
    ensures !Share(c, p) ==> FirstIn(p, c) == ""
  {
    if |p| > 0 && p[0] !in c {
      FirstInIs(p[1..], c);
      if Share(c, p) {
        var w :| w in p && w in c;
        assert w in p[1..];
      }
      if Share(c, p[1..]) {
        var w :| w in p[1..] && w in c;
        assert w in p;
      }
    }
  }

  /** The primary of a node that had primary x in view m and has committed the views up to k. */
  function PrimaryFrom(x: string, views: seq<seq<string>>, m: nat, k: nat): string
    requires m <= k < |views|
  {
    if k == m then x else NextPrimary(PrimaryFrom(x, views, m, k - 1), views[k], views[k - 1])
  }

  /** Different primaries become one: both left, or one left and the other is chosen. */
  predicate Meet(a: string, b: string, c: seq<string>, p: seq<string>) {
    || (a !in c && b !in c)
    || (a in c && b !in c && FirstIn(p, c) == a)
    || (b in c && a !in c && FirstIn(p, c) == b)
  }

  lemma NextAgreesExactlyWhen(a: string, b: string, c: seq<string>, p: seq<string>)
    ensures NextPrimary(a, c, p) == NextPrimary(b, c, p) <==> a == b || Meet(a, b, c, p)
  {
  }

  /** The choices for view c from primary a after view p and from primary b after view q are the same. */
  predicate MeetFrom(a: string, p: seq<string>, b: string, q: seq<string>, c: seq<string>) {
    if a in c then
      if b in c then a == b else FirstIn(q, c) == a
    else
      FirstIn(p, c) == if b in c then b else FirstIn(q, c)
  }

  lemma ChoicesAgreeExactlyWhen(a: string, p: seq<string>, b: string, q: seq<string>, c: seq<string>)
    ensures NextPrimary(a, c, p) == NextPrimary(b, c, q) <==> MeetFrom(a, p, b, q, c)
    ensures MeetFrom(a, p, b, p, c) <==> a == b || Meet(a, b, c, p)
  {
  }

  /** Nodes with primaries a and b in view m have met by view k. */
  ghost predicate HaveMet(a: string, b: string, views: seq<seq<string>>, m: nat, k: nat)
    requires m <= k < |views|
  {
    exists i: nat {:trigger PrimaryFrom(a, views, m, i)} :: m <= i < k
      && Meet(PrimaryFrom(a, views, m, i), PrimaryFrom(b, views, m, i), views[i + 1], views[i])
  }

  /** Two nodes that commit the same views agree on the primary of view k if and only if they agreed at the start or
      have met since. */
  lemma {:induction false} PrimariesAgreeExactlyWhen(a: string, b: string, views: seq<seq<string>>, m: nat, k: nat)
    requires m <= k < |views|
    ensures PrimaryFrom(a, views, m, k) == PrimaryFrom(b, views, m, k) <==> a == b || HaveMet(a, b, views, m, k)
  {
    if k > m {
      var x, y := PrimaryFrom(a, views, m, k - 1), PrimaryFrom(b, views, m, k - 1);
      PrimariesAgreeExactlyWhen(a, b, views, m, k - 1);
      NextAgreesExactlyWhen(x, y, views[k], views[k - 1]);
      if HaveMet(a, b, views, m, k) && !HaveMet(a, b, views, m, k - 1) {
        assert Meet(x, y, views[k], views[k - 1]);
      }
    }
  }

  /** Going on from view i with the primary of view i is going on from the start. */
  lemma {:induction false} PrimaryFromPart(x: string, views: seq<seq<string>>, m: nat, i: nat, k: nat)
    requires m <= i <= k < |views|
    ensures PrimaryFrom(PrimaryFrom(x, views, m, i), views, i, k) == PrimaryFrom(x, views, m, k)
  {
    if i < k {
      PrimaryFromPart(x, views, m, i, k - 1);
    }
  }

  /** Once equal, primaries stay equal. */
  lemma EqualPrimariesStayEqual(a: string, b: string, views: seq<seq<string>>, m: nat, i: nat, k: nat)
    requires m <= i <= k < |views| && PrimaryFrom(a, views, m, i) == PrimaryFrom(b, views, m, i)
    ensures PrimaryFrom(a, views, m, k) == PrimaryFrom(b, views, m, k)
  {
    PrimaryFromPart(a, views, m, i, k);
    PrimaryFromPart(b, views, m, i, k);
  }

  /** A primary that stays a member is kept. */
  lemma {:induction false} MemberIsKept(x: string, views: seq<seq<string>>, m: nat, k: nat)
    requires m <= k < |views| && forall i :: m < i <= k ==> x in views[i]
    ensures PrimaryFrom(x, views, m, k) == x
  {
    if k > m {
      MemberIsKept(x, views, m, k - 1);
    }
  }

  /** Two different primaries that both stay members never meet. */
  lemma MembersNeverMeet(a: string, b: string, views: seq<seq<string>>, m: nat, k: nat)
    requires m <= k < |views| && a != b && forall i :: m < i <= k ==> a in views[i] && b in views[i]
    ensures PrimaryFrom(a, views, m, k) != PrimaryFrom(b, views, m, k) && !HaveMet(a, b, views, m, k)
  {
    MemberIsKept(a, views, m, k);
    MemberIsKept(b, views, m, k);
    PrimariesAgreeExactlyWhen(a, b, views, m, k);
  }

  /** As long as consecutive views share a member, the primary of every view is a member of it and of the one before. */
  lemma {:induction false} PrimaryIsAMember(x: string, views: seq<seq<string>>, m: nat, k: nat)
    requires m <= k < |views| && x in views[m]
    requires forall i :: m < i <= k ==> Share(views[i], views[i - 1])
    ensures PrimaryFrom(x, views, m, k) in views[k]
    ensures k > m ==> PrimaryFrom(x, views, m, k) in views[k - 1]
  {
    if k > m {
      PrimaryIsAMember(x, views, m, k - 1);
      FirstInIs(views[k - 1], views[k]);
    }
  }

  /** A primary with a name is a member of its view. */
  lemma NamedPrimaryIsAMember(x: string, views: seq<seq<string>>, m: nat, k: nat)
    requires m <= k < |views| && x in views[m] && PrimaryFrom(x, views, m, k) != ""
    ensures PrimaryFrom(x, views, m, k) in views[k]
  {
    if k > m {
      FirstInIs(views[k - 1], views[k]);
    }
  }

  /** The first member of the previous view, in list order, that is still a member takes over from a primary that left;
      without one there is none. */
  lemma {:induction false} FirstInOrderTakesOver(x: string, c: seq<string>, p: seq<string>, i: nat)
    requires x !in c
    ensures i < |p| && p[i] in c && (forall j :: 0 <= j < i ==> p[j] !in c) ==> NextPrimary(x, c, p) == p[i]
    ensures (forall j :: 0 <= j < |p| ==> p[j] !in c) ==> NextPrimary(x, c, p) == ""
  {
    if |p| > 0 && p[0] !in c {
      FirstInOrderTakesOver(x, c, p[1..], if i > 0 then i - 1 else 0);
    }
  }
}
