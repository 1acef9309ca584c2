/** Marshalling as functions: the bytes a value is written as and how they are read back. */
module MarshalSpec {

  type Byte = x: int | 0 <= x < 256

  const RPC_HEADER_SZ := 24   // 20 bytes of the request header and 4 for the size

  datatype Ty = TU8 | TU16 | TU32 | TI32 | TU64 | TStr | TVec(elem: Ty) | TMap(key: Ty, item: Ty)

  datatype Val =
    | U8(n: nat) | U16(n: nat) | U32(n: nat) | I32(i: int) | U64(n: nat)
    | Str(s: seq<Byte>)
    | Vec(vs: seq<Val>)
    | Map(ps: seq<Pair>)   // a map is the list of its pairs in the order of iteration

  datatype Pair = Pair(key: Val, item: Val)

  predicate DistinctKeys(ps: seq<Pair>) {
    forall i, j :: 0 <= i < j < |ps| ==> ps[i].key != ps[j].key
  }

  /** v is a value of the C++ type: in range, and short enough for its length to fit an unsigned int. */
  predicate Fits(v: Val, ty: Ty)
    decreases ty
  {
    match ty
    case TU8 => v.U8? && v.n < 0x100
    case TU16 => v.U16? && v.n < 0x1_0000
    case TU32 => v.U32? && v.n < 0x1_0000_0000
    case TI32 => v.I32? && -0x8000_0000 <= v.i < 0x8000_0000
    case TU64 => v.U64? && v.n < 0x1_0000_0000_0000_0000
    case TStr => v.Str? && |v.s| < 0x1_0000_0000
    case TVec(e) => v.Vec? && |v.vs| < 0x1_0000_0000 && forall i :: 0 <= i < |v.vs| ==> Fits(v.vs[i], e)
    case TMap(k, e) =>
      && v.Map? && |v.ps| < 0x1_0000_0000 && DistinctKeys(v.ps)
      && forall i :: 0 <= i < |v.ps| ==> Fits(v.ps[i].key, k) && Fits(v.ps[i].item, e)
  }

  // ---- writing ----

  function Bytes16(x: nat): (b: seq<Byte>)
    ensures |b| == 2
  {
    [x / 0x100 % 0x100, x % 0x100]
  }

  function Bytes32(x: nat): (b: seq<Byte>)
    ensures |b| == 4
  {
    Bytes16(x / 0x1_0000 % 0x1_0000) + Bytes16(x % 0x1_0000)
  }

  /** The bits of a signed int read as an unsigned one. */
  function Unsigned(i: int): (n: nat)
    ensures n < 0x1_0000_0000
  {
    i % 0x1_0000_0000
  }

  function Bytes64(x: nat): (b: seq<Byte>)
    ensures |b| == 8
  {
    Bytes32(x / 0x1_0000_0000 % 0x1_0000_0000) + Bytes32(x % 0x1_0000_0000)
  }

  function Enc(v: Val): seq<Byte>
    decreases v
  {
    match v
    case U8(n) => [n % 0x100]
    case U16(n) => Bytes16(n)
    case U32(n) => Bytes32(n)
    case I32(i) => Bytes32(Unsigned(i))
    case U64(n) => Bytes64(n)
    case Str(s) => Bytes32(|s|) + s
    case Vec(vs) => Bytes32(|vs|) + EncAll(vs)
    case Map(ps) => Bytes32(|ps|) + EncPairs(ps)
  }

  function EncAll(vs: seq<Val>): seq<Byte>
    decreases vs
  {
    if |vs| == 0 then [] else Enc(vs[0]) + EncAll(vs[1..])
  }

  function EncPair(p: Pair): seq<Byte>
    decreases p
  {
    Enc(p.key) + Enc(p.item)
  }

  function EncPairs(ps: seq<Pair>): seq<Byte>
    decreases ps
  {
    if |ps| == 0 then [] else EncPair(ps[0]) + EncPairs(ps[1..])
  }

  // ---- reading ----

  /** An unmarshall object. */
  datatype Un = Un(buf: seq<Byte>, ind: nat, ok: bool)

  /** Past the end a byte reads 0 and the object is no longer ok. */
  function RawByte(u: Un): (Byte, Un) {
    if u.ind >= |u.buf| then (0, u.(ok := false)) else (u.buf[u.ind], u.(ind := u.ind + 1))
  }

  function Read16(u: Un): (nat, Un) {
    var (a, u1) := RawByte(u);
    var (b, u2) := RawByte(u1);
    (a * 0x100 + b, u2)
  }

  function Read32(u: Un): (nat, Un) {
    var (a, u1) := Read16(u);
    var (b, u2) := Read16(u1);
    (a * 0x1_0000 + b, u2)
  }

  function Read64(u: Un): (nat, Un) {
    var (h, u1) := Read32(u);
    var (l, u2) := Read32(u1);
    (h * 0x1_0000_0000 + l, u2)
  }

  function Signed(n: nat): int {
    if n >= 0x8000_0000 then n - 0x1_0000_0000 else n
  }

  /** `rawbytes`: all of the bytes or none. */
  function RawBytes(u: Un, n: nat): (seq<Byte>, Un) {
    if u.ind + n > |u.buf| then ([], u.(ok := false)) else (u.buf[u.ind..u.ind + n], u.(ind := u.ind + n))
  }

  /** A string whose size cannot be read, or does not fit, stays empty. */
  function ReadStr(u: Un): (seq<Byte>, Un) {
    var (n, u1) := Read32(u);
    if u1.ok then RawBytes(u1, n) else ([], u1)
  }

  /** `d[a] = b`: replaces the pair with key a or adds one. */
  function Assign(ps: seq<Pair>, a: Val, b: Val): seq<Pair> {
    if |ps| == 0 then [Pair(a, b)]
    else if ps[0].key == a then [Pair(a, b)] + ps[1..]
    else [ps[0]] + Assign(ps[1..], a, b)
  }

  function Dec(ty: Ty, u: Un): (Val, Un)
    decreases ty, 1, 0
  {
    match ty
    case TU8 => var (n, u1) := RawByte(u); (U8(n), u1)
    case TU16 => var (n, u1) := Read16(u); (U16(n), u1)
    case TU32 => var (n, u1) := Read32(u); (U32(n), u1)
    case TI32 => var (n, u1) := Read32(u); (I32(Signed(n)), u1)
    case TU64 => var (n, u1) := Read64(u); (U64(n), u1)
    case TStr => var (s, u1) := ReadStr(u); (Str(s), u1)
    case TVec(e) => var (n, u1) := Read32(u); var (vs, u2) := DecMore(e, n, [], u1); (Vec(vs), u2)
    case TMap(k, e) => var (n, u1) := Read32(u); var (ps, u2) := DecPairs(k, e, n, [], u1); (Map(ps), u2)
  }

  /** n turns of the vector loop, pushing onto vs. */
  function DecMore(e: Ty, n: nat, vs: seq<Val>, u: Un): (seq<Val>, Un)
    decreases TVec(e), 0, n
  {
    if n == 0 then (vs, u)
    else
      var (v, u1) := Dec(e, u);
      DecMore(e, n - 1, vs + [v], u1)
  }

  /** n turns of the map loop. */
  function DecPairs(k: Ty, e: Ty, n: nat, ps: seq<Pair>, u: Un): (seq<Pair>, Un)
    decreases TMap(k, e), 0, n
  {
    if n == 0 then (ps, u)
    else
      var (a, u1) := Dec(k, u);
      var (b, u2) := Dec(e, u1);
      DecPairs(k, e, n - 1, Assign(ps, a, b), u2)
  }

  // ---- round trip ----

  /** The object is ok and what is left to read starts with b. */
  ghost predicate Next(u: Un, b: seq<Byte>) {
    u.ok && u.ind + |b| <= |u.buf| && u.buf[u.ind..u.ind + |b|] == b
  }

  function Skip(u: Un, n: nat): Un {
    u.(ind := u.ind + n)
  }

  lemma NextSplit(u: Un, a: seq<Byte>, b: seq<Byte>)
    requires Next(u, a + b)
    ensures Next(u, a) && Next(Skip(u, |a|), b)
    ensures Skip(Skip(u, |a|), |b|) == Skip(u, |a + b|)
  {
    var all := u.buf[u.ind..u.ind + |a + b|];
    assert u.buf[u.ind..u.ind + |a|] == all[..|a|] == a;
    assert u.buf[u.ind + |a|..u.ind + |a| + |b|] == all[|a|..] == b;
  }

  lemma NextByte(u: Un, b: seq<Byte>, i: nat)
    requires Next(u, b) && i < |b|
    ensures u.buf[u.ind + i] == b[i]
  {
  }

  lemma RawByteIs(u: Un, x: Byte)
    requires Next(u, [x])
    ensures RawByte(u) == (x, Skip(u, 1))
  {
    NextByte(u, [x], 0);
  }

  lemma Read16Is(u: Un, x: nat)
    requires x < 0x1_0000 && Next(u, Bytes16(x))
    ensures Read16(u) == (x, Skip(u, 2))
  {
    NextByte(u, Bytes16(x), 0);
    NextByte(u, Bytes16(x), 1);
  }

  lemma Read32Is(u: Un, x: nat)
    requires x < 0x1_0000_0000 && Next(u, Bytes32(x))
    ensures Read32(u) == (x, Skip(u, 4))
  {
    var hi, lo := x / 0x1_0000, x % 0x1_0000;
    NextSplit(u, Bytes16(hi), Bytes16(lo));
    Read16Is(u, hi);
    Read16Is(Skip(u, 2), lo);
  }

  lemma Read64Is(u: Un, x: nat)
    requires x < 0x1_0000_0000_0000_0000 && Next(u, Bytes64(x))
    ensures Read64(u) == (x, Skip(u, 8))
  {
    var hi, lo := x / 0x1_0000_0000, x % 0x1_0000_0000;
    assert hi % 0x1_0000_0000 == hi;
    ReadHalves(u, hi, lo);
  }

  lemma ReadHalves(u: Un, hi: nat, lo: nat)
    requires hi < 0x1_0000_0000 && lo < 0x1_0000_0000 && Next(u, Bytes32(hi) + Bytes32(lo))
    ensures Read64(u) == (hi * 0x1_0000_0000 + lo, Skip(u, 8))
  {
    NextSplit(u, Bytes32(hi), Bytes32(lo));
    Read32Is(u, hi);
    Read32Is(Skip(u, 4), lo);
  }

  lemma SignedIs(i: int)
    requires -0x8000_0000 <= i < 0x8000_0000
    ensures Signed(Unsigned(i)) == i
  {
  }

  lemma ReadStrIs(u: Un, s: seq<Byte>)
    requires |s| < 0x1_0000_0000 && Next(u, Bytes32(|s|) + s)
    ensures ReadStr(u) == (s, Skip(u, 4 + |s|))
  {
    NextSplit(u, Bytes32(|s|), s);
    Read32Is(u, |s|);
  }

  lemma {:induction false} AssignNew(ps: seq<Pair>, a: Val, b: Val)
    requires forall i :: 0 <= i < |ps| ==> ps[i].key != a
    ensures Assign(ps, a, b) == ps + [Pair(a, b)]
  {
    if |ps| > 0 {
      AssignNew(ps[1..], a, b);
      assert ps == [ps[0]] + ps[1..];
    }
  }

  /** Round trip: reading the bytes of a value with its type gives the value back, leaves the object ok and stops
      right behind the value. */
  lemma {:induction false} DecOfEnc(ty: Ty, v: Val, u: Un)
    requires Fits(v, ty) && Next(u, Enc(v))
    ensures Dec(ty, u) == (v, Skip(u, |Enc(v)|))
    decreases ty, 1, 0
  {
    hide Next, Read16, Read32, Read64, ReadStr, DecMore, DecPairs, Bytes16, Bytes32, Bytes64, EncAll, EncPairs;
    match ty {
      case TU8 => RawByteIs(u, v.n);
      case TU16 => Read16Is(u, v.n);
      case TU32 => Read32Is(u, v.n);
      case TI32 =>
        Read32Is(u, Unsigned(v.i));
        SignedIs(v.i);
      case TU64 => Read64Is(u, v.n);
      case TStr => ReadStrIs(u, v.s);
      case TVec(e) => DecOfVec(e, v.vs, u);
      case TMap(k, e) => DecOfMap(k, e, v.ps, u);
    }
  }

  lemma {:induction false} DecOfVec(e: Ty, vs: seq<Val>, u: Un)
    requires Fits(Vec(vs), TVec(e)) && Next(u, Enc(Vec(vs)))
    ensures Dec(TVec(e), u) == (Vec(vs), Skip(u, |Enc(Vec(vs))|))
    decreases TVec(e), 0, |vs| + 1
  {
    NextSplit(u, Bytes32(|vs|), EncAll(vs));
    Read32Is(u, |vs|);
    DecMoreIs(e, [], vs, Skip(u, 4));
    assert [] + vs == vs;
  }

  lemma {:induction false} DecOfMap(k: Ty, e: Ty, ps: seq<Pair>, u: Un)
    requires Fits(Map(ps), TMap(k, e)) && Next(u, Enc(Map(ps)))
    ensures Dec(TMap(k, e), u) == (Map(ps), Skip(u, |Enc(Map(ps))|))
    decreases TMap(k, e), 0, |ps| + 3
  {
    NextSplit(u, Bytes32(|ps|), EncPairs(ps));
    Read32Is(u, |ps|);
    assert [] + ps == ps;
    DecPairsIs(k, e, [], ps, Skip(u, 4));
  }

  lemma {:induction false} DecMoreIs(e: Ty, done: seq<Val>, vs: seq<Val>, u: Un)
    requires (forall i :: 0 <= i < |vs| ==> Fits(vs[i], e)) && Next(u, EncAll(vs))
    ensures DecMore(e, |vs|, done, u) == (done + vs, Skip(u, |EncAll(vs)|))
    decreases TVec(e), 0, |vs|
  {
    hide Dec, Enc, Fits;
    if |vs| == 0 {
      assert done + vs == done;
    } else {
      NextSplit(u, Enc(vs[0]), EncAll(vs[1..]));
      DecOfEnc(e, vs[0], u);
      DecMoreIs(e, done + [vs[0]], vs[1..], Skip(u, |Enc(vs[0])|));
      Regroup(done, vs);
    }
  }

  lemma Regroup<T>(a: seq<T>, b: seq<T>)
    requires |b| > 0
    ensures a + [b[0]] + b[1..] == a + b
  {
  }

  lemma {:induction false} DecOnePair(k: Ty, e: Ty, p: Pair, u: Un)
    requires Fits(p.key, k) && Fits(p.item, e) && Next(u, EncPair(p))
    ensures Dec(k, u) == (p.key, Skip(u, |Enc(p.key)|))
    ensures Dec(e, Skip(u, |Enc(p.key)|)) == (p.item, Skip(u, |EncPair(p)|))
    decreases TMap(k, e), 0, 0
  {
    NextSplit(u, Enc(p.key), Enc(p.item));
    DecOfEnc(k, p.key, u);
    DecOfEnc(e, p.item, Skip(u, |Enc(p.key)|));
  }

  lemma {:induction false} DecPairsTurn(k: Ty, e: Ty, n: nat, done: seq<Pair>, p: Pair, u: Un)
    requires n > 0 && Fits(p.key, k) && Fits(p.item, e) && Next(u, EncPair(p))
    requires forall i :: 0 <= i < |done| ==> done[i].key != p.key
    ensures DecPairs(k, e, n, done, u) == DecPairs(k, e, n - 1, done + [p], Skip(u, |EncPair(p)|))
    decreases TMap(k, e), 0, 1
  {
    DecOnePair(k, e, p, u);
    AssignNew(done, p.key, p.item);
  }

  lemma {:induction false} DecPairsIs(k: Ty, e: Ty, done: seq<Pair>, ps: seq<Pair>, u: Un)
    requires (forall i :: 0 <= i < |ps| ==> Fits(ps[i].key, k) && Fits(ps[i].item, e)) && Next(u, EncPairs(ps))
    requires DistinctKeys(done + ps)
    ensures DecPairs(k, e, |ps|, done, u) == (done + ps, Skip(u, |EncPairs(ps)|))
    decreases TMap(k, e), 0, |ps| + 2
  {
    hide Dec, EncPair, Fits;
    if |ps| == 0 {
      assert done + ps == done;
    } else {
      var p := ps[0];
      NextSplit(u, EncPair(p), EncPairs(ps[1..]));
      KeyIsNew(done, ps);
      DecPairsTurn(k, e, |ps|, done, p, u);
      Regroup(done, ps);
      DecPairsIs(k, e, done + [p], ps[1..], Skip(u, |EncPair(p)|));
    }
  }

  lemma KeyIsNew(done: seq<Pair>, ps: seq<Pair>)
    requires DistinctKeys(done + ps) && |ps| > 0
    ensures forall i :: 0 <= i < |done| ==> done[i].key != ps[0].key
  {
    forall i | 0 <= i < |done|
      ensures done[i].key != ps[0].key
    {
      assert (done + ps)[i] == done[i] && (done + ps)[|done|] == ps[0];
    }
  }

  // ---- whole messages ----

  datatype ReqHeader = ReqHeader(xid: int, proc: int, cltNonce: nat, srvNonce: nat, xidRep: int)

  predicate IntRange(i: int) {
    -0x8000_0000 <= i < 0x8000_0000
  }

  predicate HeaderFits(h: ReqHeader) {
    && IntRange(h.xid) && IntRange(h.proc) && IntRange(h.xidRep)
    && h.cltNonce < 0x1_0000_0000 && h.srvNonce < 0x1_0000_0000
  }

  /** The 20 bytes behind the size field. */
  function HeaderBytes(h: ReqHeader): (b: seq<Byte>)
    ensures |b| == 20
  {
    Bytes32(Unsigned(h.xid)) + (Bytes32(Unsigned(h.proc)) + (Bytes32(h.cltNonce)
      + (Bytes32(h.srvNonce) + Bytes32(Unsigned(h.xidRep)))))
  }

  /** `unpack_req_header`: skips the size field, reads the five fields and stands behind the header. */
  function DecHeader(u: Un): (ReqHeader, Un) {
    var (a, u1) := Read32(u.(ind := 4));
    var (b, u2) := Read32(u1);
    var (c, u3) := Read32(u2);
    var (d, u4) := Read32(u3);
    var (e, u5) := Read32(u4);
    (ReqHeader(Signed(a), Signed(b), c, d, Signed(e)), u5.(ind := RPC_HEADER_SZ))
  }

  lemma ReadFirst(u: Un, x: nat, rest: seq<Byte>)
    requires x < 0x1_0000_0000 && Next(u, Bytes32(x) + rest)
    ensures Read32(u) == (x, Skip(u, 4)) && Next(Skip(u, 4), rest)
  {
    NextSplit(u, Bytes32(x), rest);
    Read32Is(u, x);
  }

  lemma HeaderRoundTrip(u: Un, h: ReqHeader)
    requires HeaderFits(h) && Next(u.(ind := 4), HeaderBytes(h))
    ensures DecHeader(u) == (h, u.(ind := RPC_HEADER_SZ))
  {
    var b4 := Bytes32(Unsigned(h.xidRep));
    var b3 := Bytes32(h.srvNonce) + b4;
    var b2 := Bytes32(h.cltNonce) + b3;
    var u0 := u.(ind := 4);
    ReadFirst(u0, Unsigned(h.xid), Bytes32(Unsigned(h.proc)) + b2);
    ReadFirst(Skip(u0, 4), Unsigned(h.proc), b2);
    ReadFirst(Skip(u0, 8), h.cltNonce, b3);
    ReadFirst(Skip(u0, 12), h.srvNonce, b4);
    Read32Is(Skip(u0, 16), Unsigned(h.xidRep));
    SignedIs(h.xid);
    SignedIs(h.proc);
    SignedIs(h.xidRep);
  }

  predicate AllFit(vs: seq<Val>, tys: seq<Ty>) {
    |vs| == |tys| && forall i :: 0 <= i < |vs| ==> Fits(vs[i], tys[i])
  }

  /** Reading arguments one after the other. */
  function DecArgs(tys: seq<Ty>, u: Un): (seq<Val>, Un) {
    if |tys| == 0 then ([], u)
    else
      var (v, u1) := Dec(tys[0], u);
      var (vs, u2) := DecArgs(tys[1..], u1);
      ([v] + vs, u2)
  }

  /** `okdone`. */
  predicate OkDone(u: Un) {
    u.ok && u.ind == |u.buf|
  }

  lemma {:induction false} ArgsRoundTrip(tys: seq<Ty>, vs: seq<Val>, u: Un)
    requires AllFit(vs, tys) && Next(u, EncAll(vs))
    ensures DecArgs(tys, u) == (vs, Skip(u, |EncAll(vs)|))
    decreases |vs|
  {
    if |vs| > 0 {
      NextSplit(u, Enc(vs[0]), EncAll(vs[1..]));
      DecOfEnc(tys[0], vs[0], u);
      ArgsRoundTrip(tys[1..], vs[1..], Skip(u, |Enc(vs[0])|));
      assert vs == [vs[0]] + vs[1..];
    }
  }

  /** A whole request: the size field, the header packed afterwards, and the arguments. */
  function Request(size: seq<Byte>, h: ReqHeader, vs: seq<Val>): seq<Byte> {
    size + HeaderBytes(h) + EncAll(vs)
  }

  /** Any mix of arguments with a header packed afterwards: the receiver reads the same header and the same arguments,
      and `okdone` is true. */
  lemma RequestRoundTrip(size: seq<Byte>, h: ReqHeader, vs: seq<Val>, tys: seq<Ty>)
    requires |size| == 4 && HeaderFits(h) && AllFit(vs, tys)
    ensures var (g, u1) := DecHeader(Un(Request(size, h, vs), 0, true));
            var (ws, u2) := DecArgs(tys, u1);
            g == h && ws == vs && OkDone(u2)
  {
    var u := Un(Request(size, h, vs), 0, true);
    assert u.buf[4..RPC_HEADER_SZ] == HeaderBytes(h) && u.buf[RPC_HEADER_SZ..|u.buf|] == EncAll(vs);
    HeaderRoundTrip(u, h);
    ArgsRoundTrip(tys, vs, u.(ind := RPC_HEADER_SZ));
  }
}
