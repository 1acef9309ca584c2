/** Views as text: `config::value` writes a node list, `config::members` reads it back. */
module Views {

  predicate IsSpace(c: char) {
    c == ' ' || c == '\t' || c == '\n' || c == '\r' || c == '\U{0B}' || c == '\U{0C}'
  }

  /** A token that stream extraction reads back as it was written. */
  ghost predicate IsWord(w: string) {
    |w| > 0 && forall c :: c in w ==> !IsSpace(c)
  }

  function WordLen(s: string): (k: nat)
    ensures k <= |s|
    ensures k < |s| ==> IsSpace(s[k])
    ensures forall i :: 0 <= i < k ==> !IsSpace(s[i])
  {
    if |s| == 0 || IsSpace(s[0]) then 0 else 1 + WordLen(s[1..])
  }

  function Members(s: string): seq<string> {
    if |s| == 0 then []
    else if IsSpace(s[0]) then Members(s[1..])
    else [s[..WordLen(s)]] + Members(s[WordLen(s)..])
  }

  function Value(m: seq<string>): string {
    if |m| == 0 then "" else m[0] + " " + Value(m[1..])
  }

  lemma WordLenIs(w: string, rest: string)
    requires IsWord(w) && (|rest| == 0 || IsSpace(rest[0]))
    ensures WordLen(w + rest) == |w|
  {
    var k := WordLen(w + rest);
    assert forall i :: 0 <= i < |w| ==> (w + rest)[i] == w[i];
    assert |rest| > 0 ==> (w + rest)[|w|] == rest[0];
  }

  /** Reading back what was written gives the same view. */
  lemma {:induction false} MembersOfValue(m: seq<string>)
    requires forall w :: w in m ==> IsWord(w)
    ensures Members(Value(m)) == m
    ensures Value(m) == "" <==> m == []
  {
    if |m| > 0 {
      var rest := " " + Value(m[1..]);
      assert Value(m) == m[0] + rest;
      assert m[0] in m && !IsSpace(m[0][0]);
      WordLenIs(m[0], rest);
      assert (m[0] + rest)[..|m[0]|] == m[0] && (m[0] + rest)[|m[0]|..] == rest;
      assert (m[0] + rest)[0] == m[0][0];
      assert rest[1..] == Value(m[1..]);
      MembersOfValue(m[1..]);
      assert m == [m[0]] + m[1..];
    }
  }

  /** Every member a view text yields is a word, so views stay readable from one instance to the next. */
  lemma {:induction false} MembersAreWords(s: string)
    ensures forall w :: w in Members(s) ==> IsWord(w)
    decreases |s|
  {
    if |s| > 0 {
      if IsSpace(s[0]) {
        MembersAreWords(s[1..]);
      } else {
        assert WordLen(s) > 0;
        MembersAreWords(s[WordLen(s)..]);
      }
    }
  }

  /** The members other than m, in order. */
  function Without(l: seq<string>, m: string): seq<string> {
    if |l| == 0 then []
    else Without(l[..|l| - 1], m) + if l[|l| - 1] != m then [l[|l| - 1]] else []
  }

  lemma {:induction false} WithoutIs(l: seq<string>, m: string)
    ensures forall w :: w in Without(l, m) <==> w in l && w != m
    ensures |Without(l, m)| <= |l|
  {
    if |l| > 0 {
      WithoutIs(l[..|l| - 1], m);
      assert l == l[..|l| - 1] + [l[|l| - 1]];
    }
  }

  lemma WithoutNone(m: string)
    ensures Without([], m) == []
  {
  }

  lemma WithoutSnoc(l: seq<string>, w: string, m: string)
    ensures Without(l + [w], m) == if w == m then Without(l, m) else Without(l, m) + [w]
  {
    assert (l + [w])[..|l|] == l;
  }

  // ---- reading any text ----

  lemma SpacesAre(c: char)
    ensures IsSpace(c) <==> c in " \t\n\r\U{0B}\U{0C}"
  {
  }

  lemma WordLenCut(a: string, rest: string)
    requires |rest| > 0 && IsSpace(rest[0]) && |a| > 0
    ensures WordLen(a + rest) == WordLen(a)
  {
    var k := WordLen(a);
    assert forall i :: 0 <= i < |a| ==> (a + rest)[i] == a[i];
    assert (a + rest)[|a|] == rest[0];
    assert IsSpace((a + rest)[k]);
  }

  /** White space of any kind and amount separates members and is otherwise ignored. */
  lemma {:induction false} SpaceSeparates(a: string, c: char, b: string)
    requires c in " \t\n\r\U{0B}\U{0C}"
    ensures Members(a + ([c] + b)) == Members(a) + Members(b)
    decreases |a|
  {
    SpacesAre(c);
    var rest := [c] + b;
    if |a| == 0 {
      assert a + rest == rest && rest[1..] == b;
    } else if IsSpace(a[0]) {
      assert (a + rest)[1..] == a[1..] + rest;
      SpaceSeparates(a[1..], c, b);
    } else {
      var k := WordLen(a);
      WordLenCut(a, rest);
      assert (a + rest)[..k] == a[..k] && (a + rest)[k..] == a[k..] + rest;
      SpaceSeparates(a[k..], c, b);
    }
  }

  /** A text without white space is one member, an empty one none. */
  lemma WordIsMember(w: string)
    requires forall c :: c in w ==> c !in " \t\n\r\U{0B}\U{0C}"
    ensures Members(w) == if w == "" then [] else [w]
  {
    forall i | 0 <= i < |w|
      ensures !IsSpace(w[i])
    {
      assert w[i] in w;
      SpacesAre(w[i]);
    }
    if w != "" {
      assert w[..|w|] == w && Members(w[|w|..]) == [];
    }
  }
}
