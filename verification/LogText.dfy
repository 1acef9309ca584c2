/** The log file as text: printing records the way the log writes them, and parsing them back. */
module LogText {
  import opened PropNumbers
  import opened AcceptorSpec
  import opened Views
  import opened Wrappers

  // ---- numbers ----

  function DigitChar(d: nat): char
    requires d < 10
  {
    '0' + d as char
  }

  predicate IsDigit(c: char) {
    '0' <= c <= '9'
  }

  function Dec(n: nat): string {
    if n < 10 then [DigitChar(n)] else Dec(n / 10) + [DigitChar(n % 10)]
  }

  function ToNat(s: string): nat
    requires forall c :: c in s ==> IsDigit(c)
  {
    if |s| == 0 then 0
    else
      assert s[|s| - 1] in s && IsDigit(s[|s| - 1]);
      ToNat(s[..|s| - 1]) * 10 + (s[|s| - 1] - '0') as nat
  }

  lemma {:induction false} DecDigits(n: nat)
    ensures |Dec(n)| > 0 && (forall c :: c in Dec(n) ==> IsDigit(c)) && ToNat(Dec(n)) == n
  {
    if n < 10 {
      assert Dec(n)[..0] == [];
    } else {
      DecDigits(n / 10);
      assert Dec(n)[..|Dec(n)| - 1] == Dec(n / 10);
    }
  }

  function DigitLen(s: string): (k: nat)
    ensures k <= |s| && (k < |s| ==> !IsDigit(s[k]))
    ensures forall i :: 0 <= i < k ==> IsDigit(s[i])
  {
    if |s| == 0 || !IsDigit(s[0]) then 0 else 1 + DigitLen(s[1..])
  }

  // ---- stream extraction ----

  function SkipSpace(s: string): string {
    if |s| > 0 && IsSpace(s[0]) then SkipSpace(s[1..]) else s
  }

  /** `from >> word`: the next token, empty at the end of the file. */
  function ReadWord(s: string): (string, string) {
    var t := SkipSpace(s);
    (t[..WordLen(t)], t[WordLen(t)..])
  }

  /** `from >> number`; no digits leave 0. */
  function ReadNat(s: string): (nat, string) {
    var t := SkipSpace(s);
    assert forall c :: c in t[..DigitLen(t)] ==> IsDigit(c);
    (ToNat(t[..DigitLen(t)]), t[DigitLen(t)..])
  }

  /** `from.get()`. */
  function SkipChar(s: string): string {
    if |s| > 0 then s[1..] else s
  }

  function LineLen(s: string): (k: nat)
    ensures k <= |s| && (k < |s| ==> s[k] == '\n')
    ensures forall i :: 0 <= i < k ==> s[i] != '\n'
  {
    if |s| == 0 || s[0] == '\n' then 0 else 1 + LineLen(s[1..])
  }

  /** `getline`: up to the newline, which is dropped. */
  function ReadLine(s: string): (string, string) {
    (s[..LineLen(s)], SkipChar(s[LineLen(s)..]))
  }

  // ---- records ----

  /** Records the log can hold: names are words, values have no newline. */
  ghost predicate Printable(r: LogRec) {
    match r
    case Done(_, v) => '\n' !in v
    case High(n) => IsWord(n.m)
    case Accepted(n, v) => IsWord(n.m) && '\n' !in v
  }

  function Print(r: LogRec): string {
    match r
    case Done(i, v) => "done" + (" " + (Dec(i) + (" " + (v + "\n"))))
    case High(n) => "high" + (" " + (Dec(n.n) + (" " + (n.m + "\n"))))
    case Accepted(n, v) => "prop" + (" " + (Dec(n.n) + (" " + (n.m + (" " + (v + "\n"))))))
  }

  function PrintAll(rs: seq<LogRec>): string {
    if |rs| == 0 then "" else Print(rs[0]) + PrintAll(rs[1..])
  }

  datatype ReadResult = EndOfFile | Unknown | Got(rec: LogRec, rest: string)

  /** One turn of the loop in `logread`. */
  function ReadRec(s: string): ReadResult {
    var (kind, s1) := ReadWord(s);
    if kind == "" then EndOfFile
    else if kind == "done" then
      var (i, s2) := ReadNat(s1);
      var (v, s3) := ReadLine(SkipChar(s2));
      Got(Done(i, v), s3)
    else if kind == "high" then
      var (n, s2) := ReadNat(s1);
      var (m, s3) := ReadWord(s2);
      Got(High(Prop(n, m)), s3)
    else if kind == "prop" then
      var (n, s2) := ReadNat(s1);
      var (m, s3) := ReadWord(s2);
      var (v, s4) := ReadLine(SkipChar(s3));
      Got(Accepted(Prop(n, m), v), s4)
    else Unknown
  }

  lemma {:induction false} SkipSpaceShrinks(s: string)
    ensures |SkipSpace(s)| <= |s|
    ensures |SkipSpace(s)| > 0 ==> !IsSpace(SkipSpace(s)[0])
  {
    if |s| > 0 && IsSpace(s[0]) {
      SkipSpaceShrinks(s[1..]);
    }
  }

  /** A turn that yields a record consumes some of the file. */
  lemma ReadRecShrinks(s: string)
    ensures ReadRec(s).Got? ==> |ReadRec(s).rest| < |s|
  {
    SkipSpaceShrinks(s);
    var (kind, s1) := ReadWord(s);
    SkipSpaceShrinks(s1);
    var (n, s2) := ReadNat(s1);
    SkipSpaceShrinks(s2);
  }

  /** All records up to the end of the file; false when a record type is unknown. */
  function Parse(s: string): (seq<LogRec>, bool)
    decreases |s|
  {
    match ReadRec(s)
    case EndOfFile => ([], true)
    case Unknown => ([], false)
    case Got(rec, rest) =>
      ReadRecShrinks(s);
      var (rs, ok) := Parse(rest);
      ([rec] + rs, ok)
  }

  /** The parse of a file in terms of its first record. */
  lemma ParseTurn(s: string)
    ensures match ReadRec(s)
            case EndOfFile => Parse(s) == ([], true)
            case Unknown => Parse(s) == ([], false)
            case Got(rec, rest) => |rest| < |s| && Parse(s) == ([rec] + Parse(rest).0, Parse(rest).1)
  {
    ReadRecShrinks(s);
  }

  // ---- round trip ----

  lemma ReadWordIs(w: string, rest: string)
    requires IsWord(w) && (|rest| == 0 || IsSpace(rest[0]))
    ensures ReadWord(w + rest) == (w, rest) && ReadWord(" " + (w + rest)) == (w, rest)
  {
    assert (w + rest)[0] == w[0] && w[0] in w;
    assert SkipSpace(w + rest) == w + rest;
    assert (" " + (w + rest))[1..] == w + rest;
    WordLenIs(w, rest);
    assert (w + rest)[..|w|] == w && (w + rest)[|w|..] == rest;
  }

  lemma ReadNatIs(n: nat, rest: string)
    requires |rest| > 0 && !IsDigit(rest[0])
    ensures ReadNat(" " + (Dec(n) + rest)) == (n, rest)
  {
    DecDigits(n);
    var d := Dec(n);
    var t := d + rest;
    assert t[0] == d[0] && d[0] in d;
    assert (" " + t)[1..] == t && SkipSpace(t) == t;
    assert forall i :: 0 <= i < |d| ==> t[i] == d[i] && d[i] in d;
    assert t[|d|] == rest[0];
    assert DigitLen(t) == |d|;
    assert t[..|d|] == d && t[|d|..] == rest;
  }

  lemma ReadLineIs(v: string, rest: string)
    requires '\n' !in v
    ensures ReadLine(v + "\n" + rest) == (v, rest)
  {
    var t := v + "\n" + rest;
    assert forall i :: 0 <= i < |v| ==> t[i] == v[i] && v[i] in v;
    assert t[|v|] == '\n';
    assert LineLen(t) == |v|;
    assert t[..|v|] == v && t[|v|..][1..] == rest;
  }

  /** What follows a record cannot disturb it: a `high` line leaves its newline for the next turn to skip. */
  function Leftover(r: LogRec, rest: string): string {
    if r.High? then "\n" + rest else rest
  }

  lemma ReadRecOfDone(i: nat, v: string, rest: string)
    requires '\n' !in v
    ensures ReadRec(Print(Done(i, v)) + rest) == Got(Done(i, v), rest)
  {
    var line := v + "\n" + rest;
    var s2 := " " + line;
    var s1 := " " + (Dec(i) + s2);
    assert Print(Done(i, v)) + rest == "done" + s1;
    ReadWordIs("done", s1);
    ReadNatIs(i, s2);
    ReadLineIs(v, rest);
    assert SkipChar(s2) == line;
  }

  lemma ReadRecOfHigh(n: Prop, rest: string)
    requires IsWord(n.m)
    ensures ReadRec(Print(High(n)) + rest) == Got(High(n), "\n" + rest)
  {
    var s3 := "\n" + rest;
    var s2 := " " + (n.m + s3);
    var s1 := " " + (Dec(n.n) + s2);
    assert Print(High(n)) + rest == "high" + s1;
    ReadWordIs("high", s1);
    ReadNatIs(n.n, s2);
    ReadWordIs(n.m, s3);
  }

  lemma ReadPropLine(s: string, s1: string, n: nat, s2: string, m: string, s3: string, v: string, rest: string)
    requires ReadWord(s) == ("prop", s1) && ReadNat(s1) == (n, s2) && ReadWord(s2) == (m, s3)
    requires ReadLine(SkipChar(s3)) == (v, rest)
    ensures ReadRec(s) == Got(Accepted(Prop(n, m), v), rest)
  {
  }

  lemma ReadRecOfAccepted(n: Prop, v: string, rest: string)
    requires IsWord(n.m) && '\n' !in v
    ensures ReadRec(Print(Accepted(n, v)) + rest) == Got(Accepted(n, v), rest)
  {
    var line := v + "\n" + rest;
    var s3 := " " + line;
    var s2 := " " + (n.m + s3);
    var s1 := " " + (Dec(n.n) + s2);
    AcceptedLine(n, v, rest);
    assert SkipChar(s3) == line;
    ReadLineIs(v, rest);
    ReadWordIs("prop", s1);
    ReadNatIs(n.n, s2);
    ReadWordIs(n.m, s3);
    ReadPropLine("prop" + s1, s1, n.n, s2, n.m, s3, v, rest);
  }

  lemma AcceptedLine(n: Prop, v: string, rest: string)
    ensures Print(Accepted(n, v)) + rest == "prop" + (" " + (Dec(n.n) + (" " + (n.m + (" " + (v + "\n" + rest))))))
  {
  }

  lemma ReadRecOfPrinted(r: LogRec, rest: string)
    requires Printable(r)
    ensures ReadRec(Print(r) + rest) == Got(r, Leftover(r, rest))
  {
    match r {
      case Done(i, v) => ReadRecOfDone(i, v, rest);
      case High(n) => ReadRecOfHigh(n, rest);
      case Accepted(n, v) => ReadRecOfAccepted(n, v, rest);
    }
  }

  /** A newline in front of the next record changes nothing. */
  lemma LeadingNewline(s: string)
    ensures ReadRec("\n" + s) == ReadRec(s)
    ensures Parse("\n" + s) == Parse(s)
  {
  }

  /** Round trip: whatever records were logged, the file parses back to exactly them. */
  lemma {:induction false} ParseOfPrinted(rs: seq<LogRec>)
    requires forall r :: r in rs ==> Printable(r)
    ensures Parse(PrintAll(rs)) == (rs, true)
  {
    if |rs| > 0 {
      assert rs[0] in rs && rs == [rs[0]] + rs[1..];
      ReadRecOfPrinted(rs[0], PrintAll(rs[1..]));
      LeadingNewline(PrintAll(rs[1..]));
      ParseOfPrinted(rs[1..]);
    }
  }

  lemma {:induction false} PrintAllSnoc(rs: seq<LogRec>, r: LogRec)
    ensures PrintAll(rs + [r]) == PrintAll(rs) + Print(r)
  {
    if |rs| == 0 {
      assert PrintAll([r]) == Print(r) + PrintAll([]);
    } else {
      PrintAllSnoc(rs[1..], r);
      assert (rs + [r])[1..] == rs[1..] + [r];
      Assoc(Print(rs[0]), PrintAll(rs[1..]), Print(r));
    }
  }

  // ---- dump ----

  /** `dump` copies the file line by line. */
  function Lines(s: string): string
    decreases |s|
  {
    if |s| == 0 then "" else (ReadLine(s).0 + "\n") + Lines(ReadLine(s).1)
  }

  lemma LinesStep(done: string, s: string)
    requires |s| > 0
    ensures |ReadLine(s).1| < |s|
    ensures done + Lines(s) == (done + (ReadLine(s).0 + "\n")) + Lines(ReadLine(s).1)
  {
  }

  /** Copying a file whose last line is complete gives the file, so restoring a dump is the identity. */
  lemma {:induction false} DumpIsIdentity(s: string)
    requires |s| > 0 ==> s[|s| - 1] == '\n'
    ensures Lines(s) == s
    decreases |s|
  {
    if |s| > 0 {
      var k := LineLen(s);
      assert k < |s|;
      var rest := s[k..][1..];
      assert s == s[..k] + "\n" + rest;
      assert |rest| > 0 ==> rest[|rest| - 1] == s[|s| - 1];
      DumpIsIdentity(rest);
    }
  }

  lemma {:induction false} LogEndsLines(rs: seq<LogRec>)
    ensures |PrintAll(rs)| > 0 ==> PrintAll(rs)[|PrintAll(rs)| - 1] == '\n'
  {
    if |rs| > 0 {
      LogEndsLines(rs[1..]);
    }
  }

  /** A last line without its newline is copied with one. */
  lemma {:induction false} DumpCompletesTheLastLine(s: string)
    requires |s| > 0 && s[|s| - 1] != '\n'
    ensures Lines(s) == s + "\n"
    decreases |s|
  {
    var k := LineLen(s);
    if k == |s| {
      assert s[..k] == s && s[k..] == "";
    } else {
      var rest := s[k..][1..];
      assert s == s[..k] + "\n" + rest;
      assert |rest| > 0 && rest[|rest| - 1] == s[|s| - 1];
      DumpCompletesTheLastLine(rest);
      assert s[..k] + "\n" + (rest + "\n") == s + "\n";
    }
  }

  // ---- the layout of the file ----

  function Pow10(k: nat): nat {
    if k == 0 then 1 else 10 * Pow10(k - 1)
  }

  /** Numbers are in decimal, the most significant digit first. */
  lemma {:induction false} DigitsArePositional(a: string, b: string)
    requires (forall c :: c in a ==> IsDigit(c)) && (forall c :: c in b ==> IsDigit(c))
    ensures (forall c :: c in a + b ==> IsDigit(c)) && ToNat(a + b) == ToNat(a) * Pow10(|b|) + ToNat(b)
    decreases |b|
  {
    if |b| == 0 {
      assert a + b == a;
    } else {
      var front, last := b[..|b| - 1], b[|b| - 1];
      assert last in b;
      assert (a + b)[..|a + b| - 1] == a + front && (a + b)[|a + b| - 1] == last;
      DigitsArePositional(a, front);
      assert |front| == |b| - 1 && ToNat(b) == ToNat(front) * 10 + (last - '0') as nat;
      Shifted(ToNat(a), Pow10(|front|), ToNat(front));
    }
  }

  lemma Shifted(a: nat, p: nat, b: nat)
    ensures (a * p + b) * 10 == a * (10 * p) + b * 10
  {
  }

  /** Each digit counts for itself, and a number has no zeros in front. */
  lemma {:induction false} NumbersAreDecimal(n: nat)
    ensures n < 10 ==> Dec(n) == ["0123456789"[n]]
    ensures n > 0 ==> Dec(n)[0] != '0'
  {
    if n >= 10 {
      NumbersAreDecimal(n / 10);
      DecDigits(n / 10);
    }
  }

  /** One line a record: its kind, its number or instance, and then what it says. */
  lemma LinesOfRecords(i: nat, n: Prop, v: string)
    ensures Print(Done(i, v)) == "done " + Dec(i) + " " + v + "\n"
    ensures Print(High(n)) == "high " + Dec(n.n) + " " + n.m + "\n"
    ensures Print(Accepted(n, v)) == "prop " + Dec(n.n) + " " + n.m + " " + v + "\n"
  {
    assert "done" + " " == "done " && "high" + " " == "high " && "prop" + " " == "prop ";
    Assoc("done", " ", Dec(i) + (" " + (v + "\n")));
    Assoc("high", " ", Dec(n.n) + (" " + (n.m + "\n")));
    Assoc("prop", " ", Dec(n.n) + (" " + (n.m + (" " + (v + "\n")))));
    Regrouped("done ", Dec(i), v + "\n");
    Regrouped("high ", Dec(n.n), n.m + "\n");
    Regrouped("prop ", Dec(n.n), n.m + (" " + (v + "\n")));
  }

  lemma Regrouped(a: string, b: string, c: string)
    ensures a + (b + (" " + c)) == a + b + " " + c
  {
  }

  // ---- what a file that ends in something else parses to ----

  lemma {:induction false} ParseBehindRecords(rs: seq<LogRec>, tail: string)
    requires forall r :: r in rs ==> Printable(r)
    ensures Parse(PrintAll(rs) + tail) == (rs + Parse(tail).0, Parse(tail).1)
  {
    if |rs| == 0 {
      assert PrintAll(rs) + tail == tail && rs + Parse(tail).0 == Parse(tail).0;
    } else {
      assert rs[0] in rs && rs == [rs[0]] + rs[1..];
      var rest := PrintAll(rs[1..]) + tail;
      Assoc(Print(rs[0]), PrintAll(rs[1..]), tail);
      ReadRecOfPrinted(rs[0], rest);
      ParseTurn(Print(rs[0]) + rest);
      LeadingNewline(rest);
      ParseBehindRecords(rs[1..], tail);
      Assoc([rs[0]], rs[1..], Parse(tail).0);
    }
  }

  lemma UnknownTurn(s: string, w: string, rest: string)
    requires ReadWord(s) == (w, rest) && w != "" && w != "done" && w != "high" && w != "prop"
    ensures ReadRec(s) == Unknown
  {
  }

  /** A word that is no kind of record stops the reading: the records before it stand, and the read fails. */
  lemma UnknownRecordStopsTheRead(rs: seq<LogRec>, w: string, rest: string)
    requires (forall r :: r in rs ==> Printable(r)) && IsWord(w) && (|rest| == 0 || IsSpace(rest[0]))
    requires w != "done" && w != "high" && w != "prop"
    ensures Parse(PrintAll(rs) + (w + rest)) == (rs, false)
  {
    hide Parse, ReadRec, ReadWord, PrintAll;
    ParseBehindRecords(rs, w + rest);
    ReadWordIs(w, rest);
    UnknownTurn(w + rest, w, rest);
    ParseTurn(w + rest);
    assert rs + [] == rs;
  }
}
