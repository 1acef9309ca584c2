/** What readers and writers may rely on, said without naming how a value is read or written: the layout of the bytes,
    and that reading succeeds exactly on complete input. */
module MarshalLaws {
  import opened MarshalSpec
  import opened MarshalObjects

  // ---- the bytes of a value ----

  /** The number a sequence of bytes stands for in network order. */
  function BigEndian(b: seq<Byte>): nat {
    if |b| == 0 then 0 else BigEndian(b[..|b| - 1]) * 0x100 + b[|b| - 1]
  }

  lemma BigEndianByte(a: Byte)
    ensures BigEndian([a]) == a
  {
    assert [a][..0] == [];
    assert BigEndian([a]) == BigEndian([]) * 0x100 + a;
  }

  lemma BigEndianPair(a: Byte, b: Byte)
    ensures BigEndian([a, b]) == a * 0x100 + b
  {
    assert [a, b][..1] == [a];
    BigEndianByte(a);
  }

  lemma {:induction false} BigEndianJoin16(a: seq<Byte>, b: seq<Byte>)
    requires |b| == 2
    ensures BigEndian(a + b) == BigEndian(a) * 0x1_0000 + BigEndian(b)
  {
    assert (a + b)[..|a| + 1] == a + [b[0]] && (a + [b[0]])[..|a|] == a;
    assert b == [b[0], b[1]];
    BigEndianPair(b[0], b[1]);
  }

  lemma BigEndianJoin32(a: seq<Byte>, b: seq<Byte>)
    requires |b| == 4
    ensures BigEndian(a + b) == BigEndian(a) * 0x1_0000_0000 + BigEndian(b)
  {
    assert a + b == (a + b[..2]) + b[2..] && b == b[..2] + b[2..];
    BigEndianJoin16(a + b[..2], b[2..]);
    BigEndianJoin16(a, b[..2]);
    BigEndianJoin16(b[..2], b[2..]);
  }

  lemma BigEndian16(x: nat)
    ensures BigEndian(Bytes16(x)) == x % 0x1_0000
  {
    BigEndianPair(x / 0x100 % 0x100, x % 0x100);
  }

  lemma BigEndian32(x: nat)
    ensures BigEndian(Bytes32(x)) == x % 0x1_0000_0000
  {
    hide Bytes16, BigEndian;
    var hi, lo := x / 0x1_0000 % 0x1_0000, x % 0x1_0000;
    BigEndian16(hi);
    BigEndian16(lo);
    BigEndianJoin16(Bytes16(hi), Bytes16(lo));
  }

  lemma BigEndian64(x: nat)
    ensures BigEndian(Bytes64(x)) == x % 0x1_0000_0000_0000_0000
  {
    hide Bytes32, BigEndian;
    var hi, lo := x / 0x1_0000_0000 % 0x1_0000_0000, x % 0x1_0000_0000;
    BigEndian32(hi);
    BigEndian32(lo);
    BigEndianJoin32(Bytes32(hi), Bytes32(lo));
  }

  /** The bytes of a number have its width and stand for it in network order, a signed one in two's complement. */
  lemma NumbersAreBigEndian(v: Val, ty: Ty)
    requires Fits(v, ty) && Width(ty) > 0
    ensures |Enc(v)| == Width(ty)
    ensures BigEndian(Enc(v)) == if v.I32? then (if v.i < 0 then v.i + 0x1_0000_0000 else v.i) else v.n
  {
    hide BigEndian, Bytes16, Bytes32, Bytes64;
    match v {
      case U8(n) => BigEndianByte(n % 0x100);
      case U16(n) => BigEndian16(n);
      case U32(n) => BigEndian32(n);
      case I32(i) => BigEndian32(Unsigned(i));
      case U64(n) => BigEndian64(n);
    }
  }

  /** The number of bytes of a type whose values all take the same; 0 for the others. */
  function Width(ty: Ty): nat {
    match ty
    case TU8 => 1
    case TU16 => 2
    case TU32 => 4
    case TI32 => 4
    case TU64 => 8
    case _ => 0
  }

  /** Strings and vectors start with their size; the bytes or elements follow in order. */
  lemma VectorsAreSizeThenElements(s: seq<Byte>, vs: seq<Val>, v: Val)
    ensures Enc(Str(s)) == Enc(U32(|s|)) + s
    ensures Enc(Vec([])) == Enc(U32(0))
    ensures Enc(Vec(vs + [v])) == Enc(U32(|vs| + 1)) + Enc(Vec(vs))[4..] + Enc(v)
  {
    EncAllSnoc(vs, v);
    assert Enc(Vec(vs))[4..] == EncAll(vs);
  }

  /** So do maps; their pairs follow in order, the key first. */
  lemma MapsAreSizeThenPairs(ps: seq<Pair>, p: Pair)
    ensures Enc(Map([])) == Enc(U32(0))
    ensures Enc(Map(ps + [p])) == Enc(U32(|ps| + 1)) + Enc(Map(ps))[4..] + Enc(p.key) + Enc(p.item)
  {
    EncPairsSnoc(ps, p);
    assert Enc(Map(ps))[4..] == EncPairs(ps);
  }

  /** Where the fields of a request header are: behind the size field at 4, 8, 12, 16 and 20. */
  lemma HeaderLayout(size: seq<Byte>, h: ReqHeader, vs: seq<Val>)
    requires |size| == 4 && HeaderFits(h)
    ensures var r := Request(size, h, vs);
            && |r| >= RPC_HEADER_SZ && r[..4] == size
            && BigEndian(r[4..8]) == Unsigned(h.xid) && BigEndian(r[8..12]) == Unsigned(h.proc)
            && BigEndian(r[12..16]) == h.cltNonce && BigEndian(r[16..20]) == h.srvNonce
            && BigEndian(r[20..24]) == Unsigned(h.xidRep)
            && r[24..] == EncAll(vs)
  {
    hide BigEndian, Bytes32;
    var r := Request(size, h, vs);
    BigEndian32(Unsigned(h.xid));
    BigEndian32(Unsigned(h.proc));
    BigEndian32(h.cltNonce);
    BigEndian32(h.srvNonce);
    BigEndian32(Unsigned(h.xidRep));
    FieldsAre(size, Bytes32(Unsigned(h.xid)), Bytes32(Unsigned(h.proc)), Bytes32(h.cltNonce), Bytes32(h.srvNonce),
              Bytes32(Unsigned(h.xidRep)), EncAll(vs));
  }

  lemma FieldsAre(size: seq<Byte>, a: seq<Byte>, b: seq<Byte>, c: seq<Byte>, d: seq<Byte>, e: seq<Byte>,
        rest: seq<Byte>)
    requires |size| == |a| == |b| == |c| == |d| == |e| == 4
    ensures var r := size + (a + (b + (c + (d + e)))) + rest;
            && r[..4] == size && r[4..8] == a && r[8..12] == b && r[12..16] == c && r[16..20] == d && r[20..24] == e
            && r[24..] == rest
  {
    var r := size + (a + (b + (c + (d + e)))) + rest;
    assert r == (size + a + b) + (c + d + e + rest);
    assert (size + a + b)[4..8] == a && (size + a + b)[8..12] == b;
    assert r[12..] == c + d + e + rest;
    assert (c + d + e + rest)[4..8] == d && (c + d + e + rest)[8..12] == e;
  }

  // ---- reading moves forward, and ok once lost never comes back ----

  ghost predicate Forward(u: Un, w: Un) {
    w.buf == u.buf && u.ind <= w.ind && (u.ind <= |u.buf| ==> w.ind <= |u.buf|) && (w.ok ==> u.ok)
  }

  lemma Read16Forward(u: Un)
    ensures Forward(u, Read16(u).1)
  {
  }

  lemma Read32Forward(u: Un)
    ensures Forward(u, Read32(u).1)
  {
    hide Read16;
    Read16Forward(u);
    Read16Forward(Read16(u).1);
  }

  lemma Read64Forward(u: Un)
    ensures Forward(u, Read64(u).1)
  {
    hide Read32;
    Read32Forward(u);
    Read32Forward(Read32(u).1);
  }

  /** Reading a value never touches the buffer, never goes back or past the end, and never makes the object ok again. */
  lemma {:induction false} OkNeverComesBack(ty: Ty, u: Un)
    ensures Forward(u, Dec(ty, u).1)
    decreases ty, 1, 0
  {
    hide Read16, Read32, Read64;
    Read16Forward(u);
    Read32Forward(u);
    Read64Forward(u);
    match ty {
      case TVec(e) => MoreForward(e, Read32(u).0, [], Read32(u).1);
      case TMap(k, e) => PairsForward(k, e, Read32(u).0, [], Read32(u).1);
      case _ =>
    }
  }

  lemma {:induction false} MoreForward(e: Ty, n: nat, vs: seq<Val>, u: Un)
    ensures Forward(u, DecMore(e, n, vs, u).1)
    decreases TVec(e), 0, n
  {
    hide Dec;
    if n > 0 {
      OkNeverComesBack(e, u);
      MoreForward(e, n - 1, vs + [Dec(e, u).0], Dec(e, u).1);
    }
  }

  lemma {:induction false} PairsForward(k: Ty, e: Ty, n: nat, ps: seq<Pair>, u: Un)
    ensures Forward(u, DecPairs(k, e, n, ps, u).1)
    decreases TMap(k, e), 0, n
  {
    hide Dec;
    if n > 0 {
      var (a, u1) := Dec(k, u);
      var (b, u2) := Dec(e, u1);
      OkNeverComesBack(k, u);
      OkNeverComesBack(e, u1);
      PairsForward(k, e, n - 1, Assign(ps, a, b), u2);
    }
  }

  // ---- more bytes behind it never change a value that was read ----

  function Longer(u: Un, more: seq<Byte>): Un {
    u.(buf := u.buf + more)
  }

  lemma Read16Longer(u: Un, more: seq<Byte>)
    requires Read16(u).1.ok
    ensures Read16(Longer(u, more)) == (Read16(u).0, Longer(Read16(u).1, more))
  {
  }

  lemma Read32Longer(u: Un, more: seq<Byte>)
    requires Read32(u).1.ok
    ensures Read32(Longer(u, more)) == (Read32(u).0, Longer(Read32(u).1, more))
  {
    hide Read16;
    Read16Forward(Read16(u).1);
    Read16Longer(u, more);
    Read16Longer(Read16(u).1, more);
  }

  lemma Read64Longer(u: Un, more: seq<Byte>)
    requires Read64(u).1.ok
    ensures Read64(Longer(u, more)) == (Read64(u).0, Longer(Read64(u).1, more))
  {
    hide Read32;
    Read32Forward(Read32(u).1);
    Read32Longer(u, more);
    Read32Longer(Read32(u).1, more);
  }

  lemma RawBytesLonger(u: Un, n: nat, more: seq<Byte>)
    requires RawBytes(u, n).1.ok
    ensures RawBytes(Longer(u, more), n) == (RawBytes(u, n).0, Longer(RawBytes(u, n).1, more))
  {
    if u.ind + n <= |u.buf| {
      assert (u.buf + more)[u.ind..u.ind + n] == u.buf[u.ind..u.ind + n];
    }
  }

  lemma ReadStrLonger(u: Un, more: seq<Byte>)
    requires ReadStr(u).1.ok
    ensures ReadStr(Longer(u, more)) == (ReadStr(u).0, Longer(ReadStr(u).1, more))
  {
    hide Read32;
    Read32Forward(u);
    Read32Longer(u, more);
    RawBytesLonger(Read32(u).1, Read32(u).0, more);
  }

  /** A value that was read is the same when more bytes follow. */
  lemma {:induction false} MoreBytesChangeNothing(ty: Ty, u: Un, more: seq<Byte>)
    requires Dec(ty, u).1.ok
    ensures Dec(ty, Longer(u, more)) == (Dec(ty, u).0, Longer(Dec(ty, u).1, more))
    decreases ty, 1, 0
  {
    hide Read16, Read32, Read64, ReadStr, DecMore, DecPairs;
    match ty {
      case TU8 =>
      case TU16 => Read16Longer(u, more);
      case TU32 => Read32Longer(u, more);
      case TI32 => Read32Longer(u, more);
      case TU64 => Read64Longer(u, more);
      case TStr => ReadStrLonger(u, more);
      case TVec(e) =>
        MoreForward(e, Read32(u).0, [], Read32(u).1);
        Read32Longer(u, more);
        MoreLonger(e, Read32(u).0, [], Read32(u).1, more);
      case TMap(k, e) =>
        PairsForward(k, e, Read32(u).0, [], Read32(u).1);
        Read32Longer(u, more);
        PairsLonger(k, e, Read32(u).0, [], Read32(u).1, more);
    }
  }

  lemma {:induction false} MoreLonger(e: Ty, n: nat, vs: seq<Val>, u: Un, more: seq<Byte>)
    requires DecMore(e, n, vs, u).1.ok
    ensures DecMore(e, n, vs, Longer(u, more)) == (DecMore(e, n, vs, u).0, Longer(DecMore(e, n, vs, u).1, more))
    decreases TVec(e), 0, n
  {
    hide Dec;
    if n > 0 {
      var (v, u1) := Dec(e, u);
      MoreForward(e, n - 1, vs + [v], u1);
      MoreBytesChangeNothing(e, u, more);
      MoreLonger(e, n - 1, vs + [v], u1, more);
    }
  }

  lemma {:induction false} PairsLonger(k: Ty, e: Ty, n: nat, ps: seq<Pair>, u: Un, more: seq<Byte>)
    requires DecPairs(k, e, n, ps, u).1.ok
    ensures DecPairs(k, e, n, ps, Longer(u, more)) ==
            (DecPairs(k, e, n, ps, u).0, Longer(DecPairs(k, e, n, ps, u).1, more))
    decreases TMap(k, e), 0, n
  {
    hide Dec;
    if n > 0 {
      var (a, u1) := Dec(k, u);
      var (b, u2) := Dec(e, u1);
      PairsForward(k, e, n - 1, Assign(ps, a, b), u2);
      OkNeverComesBack(e, u1);
      MoreBytesChangeNothing(k, u, more);
      MoreBytesChangeNothing(e, u1, more);
      PairsLonger(k, e, n - 1, Assign(ps, a, b), u2, more);
    }
  }

  // ---- truncated input ----

  /** No part of a value is taken for a whole one: reading any proper prefix of its bytes loses ok. */
  lemma TruncatedValuesAreRefused(ty: Ty, v: Val, n: nat)
    requires Fits(v, ty) && n < |Enc(v)|
    ensures !Dec(ty, Un(Enc(v)[..n], 0, true)).1.ok
  {
    hide Dec, Enc, Fits;
    var all := Enc(v);
    var u := Un(all[..n], 0, true);
    if Dec(ty, u).1.ok {
      assert all[..n] + all[n..] == all;
      MoreBytesChangeNothing(ty, u, all[n..]);
      DecOfEnc(ty, v, Un(all, 0, true));
      OkNeverComesBack(ty, u);
      assert false;
    }
  }

  lemma {:induction false} ArgsForward(tys: seq<Ty>, u: Un)
    ensures Forward(u, DecArgs(tys, u).1)
    decreases |tys|
  {
    hide Dec;
    if |tys| > 0 {
      OkNeverComesBack(tys[0], u);
      ArgsForward(tys[1..], Dec(tys[0], u).1);
    }
  }

  lemma {:induction false} ArgsLonger(tys: seq<Ty>, u: Un, more: seq<Byte>)
    requires DecArgs(tys, u).1.ok
    ensures DecArgs(tys, Longer(u, more)) == (DecArgs(tys, u).0, Longer(DecArgs(tys, u).1, more))
    decreases |tys|
  {
    hide Dec;
    if |tys| > 0 {
      ArgsForward(tys[1..], Dec(tys[0], u).1);
      MoreBytesChangeNothing(tys[0], u, more);
      ArgsLonger(tys[1..], Dec(tys[0], u).1, more);
    }
  }

  lemma Read16OkExactlyWhen(u: Un)
    ensures u.ind + 2 <= |u.buf| ==> Read16(u).1 == Skip(u, 2)
    ensures Read16(u).1.ok <==> u.ok && u.ind + 2 <= |u.buf|
  {
  }

  lemma Read32OkExactlyWhen(u: Un)
    ensures u.ind + 4 <= |u.buf| ==> Read32(u).1 == Skip(u, 4)
    ensures Read32(u).1.ok <==> u.ok && u.ind + 4 <= |u.buf|
  {
    hide Read16;
    Read16Forward(u);
    Read16Forward(Read16(u).1);
    Read16OkExactlyWhen(u);
    Read16OkExactlyWhen(Read16(u).1);
  }

  lemma Read64OkExactlyWhen(u: Un)
    ensures Read64(u).1.ok <==> u.ok && u.ind + 8 <= |u.buf|
    ensures Read64(u).1.ok ==> Read64(u).1 == Skip(u, 8)
  {
    hide Read32;
    Read32OkExactlyWhen(u);
    Read32OkExactlyWhen(Read32(u).1);
    Read32Forward(Read32(u).1);
  }

  /** A number is read if and only if the object was ok and has all of its bytes, and then exactly these are consumed; a
      string, if and only if its size and as many bytes are there. */
  lemma OkExactlyWhenEnoughBytes(ty: Ty, u: Un)
    requires Width(ty) > 0 || ty == TStr
    ensures var n := if ty == TStr then 4 + Read32(u).0 else Width(ty);
            && (Dec(ty, u).1.ok <==> u.ok && u.ind + n <= |u.buf|)
            && (Dec(ty, u).1.ok ==> Dec(ty, u).1 == Skip(u, n))
  {
    hide Read16, Read32, Read64;
    Read16OkExactlyWhen(u);
    Read32OkExactlyWhen(u);
    Read64OkExactlyWhen(u);
  }

  /** The header is read if and only if the bytes reach behind it. */
  lemma HeaderIsReadExactlyWhen(u: Un)
    ensures DecHeader(u).1.ok <==> u.ok && |u.buf| >= RPC_HEADER_SZ
    ensures DecHeader(u).1 == u.(ind := RPC_HEADER_SZ, ok := DecHeader(u).1.ok)
  {
    hide Read32;
    var u0 := u.(ind := 4);
    var u1 := Read32(u0).1;
    var u2 := Read32(u1).1;
    var u3 := Read32(u2).1;
    var u4 := Read32(u3).1;
    Read32OkExactlyWhen(u0);
    Read32OkExactlyWhen(u1);
    Read32OkExactlyWhen(u2);
    Read32OkExactlyWhen(u3);
    Read32OkExactlyWhen(u4);
    Read32Forward(u0);
    Read32Forward(u1);
    Read32Forward(u2);
    Read32Forward(u3);
    Read32Forward(u4);
  }

  /** A request cut off anywhere, or with bytes left over, is refused by `okdone`, whatever it carries. */
  lemma OnlyWholeRequestsAreDone(size: seq<Byte>, h: ReqHeader, vs: seq<Val>, tys: seq<Ty>, pdu: seq<Byte>)
    requires |size| == 4 && HeaderFits(h) && AllFit(vs, tys)
    requires pdu <= Request(size, h, vs) || Request(size, h, vs) <= pdu
    ensures OkDone(DecArgs(tys, DecHeader(Un(pdu, 0, true)).1).1) <==> pdu == Request(size, h, vs)
  {
    hide DecArgs, DecHeader, Request;
    var all := Request(size, h, vs);
    var u, w := DecHeader(Un(pdu, 0, true)).1, DecHeader(Un(all, 0, true)).1;
    RequestRoundTrip(size, h, vs, tys);
    HeaderIsReadExactlyWhen(Un(pdu, 0, true));
    HeaderIsReadExactlyWhen(Un(all, 0, true));
    ArgsForward(tys, u);
    ArgsForward(tys, w);
    if all <= pdu {
      assert all + pdu[|all|..] == pdu;
      ArgsLonger(tys, w, pdu[|all|..]);
    } else if DecArgs(tys, u).1.ok {
      assert pdu + all[|pdu|..] == all;
      ArgsLonger(tys, u, all[|pdu|..]);
    }
  }

  // ---- what a failed read gives ----

  function Zeros(n: nat): seq<Byte> {
    seq(n, _ => 0)
  }

  lemma Read16Padded(u: Un, n: nat)
    requires n >= 2
    ensures Read16(u).0 == Read16(Longer(u, Zeros(n))).0
  {
  }

  lemma Read32Padded(u: Un, n: nat)
    requires u.ind <= |u.buf| && n >= 4
    ensures Read32(u).0 == Read32(Longer(u, Zeros(n))).0
  {
    var p := Longer(u, Zeros(n));
    assert forall i :: |u.buf| <= i < |u.buf| + n ==> p.buf[i] == 0;
  }

  /** Bytes that are missing read as zeros: a number cut short is the one of the bytes there are, padded. A string is
      read whole or stays empty, and a vector always gets as many elements as its size says. */
  lemma MissingBytesReadAsZeros(ty: Ty, u: Un)
    requires u.ind <= |u.buf|
    ensures 0 < Width(ty) <= 4 ==> Dec(ty, u).0 == Dec(ty, Longer(u, Zeros(4))).0
    ensures ty == TStr && !Dec(ty, u).1.ok ==> Dec(ty, u).0 == Str([])
    ensures ty.TVec? ==> |Dec(ty, u).0.vs| == Read32(u).0
  {
    hide Read16, Read32, Read64;
    Read16Padded(u, 4);
    Read32Padded(u, 4);
    if ty.TVec? {
      MoreLength(ty.elem, Read32(u).0, [], Read32(u).1);
    }
  }

  lemma {:induction false} MoreLength(e: Ty, n: nat, vs: seq<Val>, u: Un)
    ensures |DecMore(e, n, vs, u).0| == |vs| + n
    decreases n
  {
    hide Dec;
    if n > 0 {
      MoreLength(e, n - 1, vs + [Dec(e, u).0], Dec(e, u).1);
    }
  }

  // ---- whatever is read is what the bytes say ----

  predicate NoMaps(ty: Ty) {
    match ty
    case TVec(e) => NoMaps(e)
    case TMap(_, _) => false
    case _ => true
  }

  lemma Read16Says(u: Un)
    requires Read16(u).1.ok
    ensures Read16(u).0 < 0x1_0000 && Next(u, Bytes16(Read16(u).0)) && Read16(u).1 == Skip(u, 2)
  {
    assert u.buf[u.ind..u.ind + 2] == [u.buf[u.ind], u.buf[u.ind + 1]];
  }

  lemma NextJoin(u: Un, a: seq<Byte>, b: seq<Byte>)
    requires Next(u, a) && Next(Skip(u, |a|), b)
    ensures Next(u, a + b) && Skip(Skip(u, |a|), |b|) == Skip(u, |a + b|)
  {
    assert u.buf[u.ind..u.ind + |a + b|] == u.buf[u.ind..u.ind + |a|] + u.buf[u.ind + |a|..u.ind + |a| + |b|];
  }

  lemma Read32Says(u: Un)
    requires Read32(u).1.ok
    ensures Read32(u).0 < 0x1_0000_0000 && Next(u, Bytes32(Read32(u).0)) && Read32(u).1 == Skip(u, 4)
  {
    hide Read16, Bytes16, Next;
    var (a, u1) := Read16(u);
    var (b, u2) := Read16(u1);
    Read16Forward(u1);
    Read16Says(u);
    Read16Says(u1);
    NextJoin(u, Bytes16(a), Bytes16(b));
    assert (a * 0x1_0000 + b) / 0x1_0000 == a && (a * 0x1_0000 + b) % 0x1_0000 == b;
  }

  lemma Read64Says(u: Un)
    requires Read64(u).1.ok
    ensures Read64(u).0 < 0x1_0000_0000_0000_0000 && Next(u, Bytes64(Read64(u).0)) && Read64(u).1 == Skip(u, 8)
  {
    hide Read32, Bytes32;
    var (h, u1) := Read32(u);
    var (l, u2) := Read32(u1);
    Read32Forward(u1);
    Read32Says(u);
    Read32Says(u1);
    NextJoin(u, Bytes32(h), Bytes32(l));
  }

  /** What is read successfully is exactly what the bytes say: a value of the type, and its bytes are those consumed. */
  lemma {:induction false} ReadIsWritten(ty: Ty, u: Un)
    requires NoMaps(ty) && Dec(ty, u).1.ok
    ensures Fits(Dec(ty, u).0, ty) && Next(u, Enc(Dec(ty, u).0)) && Dec(ty, u).1 == Skip(u, |Enc(Dec(ty, u).0)|)
    decreases ty, 1, 0
  {
    hide Read16, Read32, Read64, ReadStr, DecMore, DecPairs, Next, Bytes16, Bytes32, Bytes64;
    match ty {
      case TU8 => ByteSays(u);
      case TU16 => Read16Says(u);
      case TU32 => Read32Says(u);
      case TI32 =>
        Read32Says(u);
        assert Unsigned(Signed(Read32(u).0)) == Read32(u).0;
      case TU64 => Read64Says(u);
      case TStr => ReadStrSays(u);
      case TVec(e) =>
        var (n, u1) := Read32(u);
        MoreForward(e, n, [], u1);
        Read32Says(u);
        NextIsOk(u, Bytes32(n));
        MoreIsWritten(e, n, [], u1);
        var vs := DecMore(e, n, [], u1).0;
        assert vs[0..] == vs;
        NextJoin(u, Bytes32(n), EncAll(vs));
    }
  }

  lemma ByteSays(u: Un)
    requires RawByte(u).1.ok
    ensures Next(u, [RawByte(u).0])
  {
  }

  lemma ReadStrSays(u: Un)
    requires ReadStr(u).1.ok
    ensures var s := ReadStr(u).0; |s| < 0x1_0000_0000 && Next(u, Bytes32(|s|) + s) && ReadStr(u).1 == Skip(u, 4 + |s|)
  {
    hide Read32, Bytes32;
    var (n, u1) := Read32(u);
    Read32Says(u);
    NextJoin(u, Bytes32(n), ReadStr(u).0);
  }

  lemma {:induction false} MoreIsWritten(e: Ty, n: nat, done: seq<Val>, u: Un)
    requires NoMaps(e) && DecMore(e, n, done, u).1.ok && u.ind <= |u.buf|
    ensures var (vs, w) := DecMore(e, n, done, u);
            && |vs| == |done| + n && vs[..|done|] == done && (forall i :: |done| <= i < |vs| ==> Fits(vs[i], e))
            && Next(u, EncAll(vs[|done|..])) && w == Skip(u, |EncAll(vs[|done|..])|)
    decreases TVec(e), 0, n
  {
    hide Dec, Fits, Enc, Next;
    if n == 0 {
      NothingIsNext(u);
    } else {
      var (v, u1) := Dec(e, u);
      MoreForward(e, n - 1, done + [v], u1);
      ReadIsWritten(e, u);
      NextIsOk(u, Enc(v));
      MoreIsWritten(e, n - 1, done + [v], u1);
      var vs := DecMore(e, n, done, u).0;
      assert vs[|done|] == v && vs[|done|..][1..] == vs[|done| + 1..];
      NextJoin(u, Enc(v), EncAll(vs[|done| + 1..]));
    }
  }

  lemma NothingIsNext(u: Un)
    requires u.ok && u.ind <= |u.buf|
    ensures Next(u, [])
  {
  }

  /** Reading succeeds if and only if the bytes at hand start with those of a value of the type, and then gives that
      value; no other value has bytes that start there. */
  lemma ReadsExactlyWhatIsWritten(ty: Ty, u: Un, v: Val)
    requires NoMaps(ty)
    ensures Fits(v, ty) && Next(u, Enc(v)) <==> Dec(ty, u) == (v, Skip(u, |Enc(v)|)) && u.ok
  {
    hide Dec, Enc, Fits, Next;
    if Fits(v, ty) && Next(u, Enc(v)) {
      DecOfEnc(ty, v, u);
      NextIsOk(u, Enc(v));
    } else if Dec(ty, u) == (v, Skip(u, |Enc(v)|)) && u.ok {
      ReadIsWritten(ty, u);
      assert false;
    }
  }

  lemma NextIsOk(u: Un, b: seq<Byte>)
    requires Next(u, b)
    ensures u.ok && u.ind + |b| <= |u.buf|
  {
  }

  // ---- maps ----

  predicate HasKey(ps: seq<Pair>, a: Val) {
    exists i :: 0 <= i < |ps| && ps[i].key == a
  }

  /** Assigning to a key that is there replaces its pair where it stands; a new one is added at the end (AssignNew). */
  lemma {:induction false} AssignReplacesInPlace(ps: seq<Pair>, a: Val, b: Val, k: nat)
    requires k < |ps| && ps[k].key == a && forall i :: 0 <= i < k ==> ps[i].key != a
    ensures Assign(ps, a, b) == ps[k := Pair(a, b)]
  {
    if k > 0 {
      AssignReplacesInPlace(ps[1..], a, b, k - 1);
      assert ps == [ps[0]] + ps[1..];
    }
  }

  lemma AddedMembers(ps: seq<Pair>, p: Pair)
    requires DistinctKeys(ps) && !HasKey(ps, p.key)
    ensures DistinctKeys(ps + [p])
    ensures forall q: Pair :: q in ps + [p] <==> q == p || (q in ps && q.key != p.key)
  {
    assert forall q :: q in ps ==> HasKey(ps, q.key);
  }

  lemma ReplacedMembers(ps: seq<Pair>, p: Pair, k: nat)
    requires DistinctKeys(ps) && k < |ps| && ps[k].key == p.key
    ensures DistinctKeys(ps[k := p])
    ensures forall q: Pair :: q in ps[k := p] <==> q == p || (q in ps && q.key != p.key)
  {
    var qs := ps[k := p];
    forall q: Pair
      ensures q in qs <==> q == p || (q in ps && q.key != p.key)
    {
      if q in qs {
        var i :| 0 <= i < |qs| && qs[i] == q;
        assert i != k ==> q == ps[i] && ps[i].key != ps[k].key;
      }
      if q in ps && q.key != p.key {
        var i :| 0 <= i < |ps| && ps[i] == q;
        assert qs[i] == q;
      }
      assert qs[k] == p;
    }
  }

  lemma AssignMembers(ps: seq<Pair>, a: Val, b: Val)
    requires DistinctKeys(ps)
    ensures DistinctKeys(Assign(ps, a, b))
    ensures forall p: Pair :: p in Assign(ps, a, b) <==> p == Pair(a, b) || (p in ps && p.key != a)
  {
    if HasKey(ps, a) {
      var k :| 0 <= k < |ps| && ps[k].key == a;
      AssignReplacesInPlace(ps, a, b, k);
      ReplacedMembers(ps, Pair(a, b), k);
    } else {
      AssignNew(ps, a, b);
      AddedMembers(ps, Pair(a, b));
    }
  }

  /** p is the last of the pairs with its key. */
  predicate LastWith(ps: seq<Pair>, p: Pair) {
    exists i :: 0 <= i < |ps| && ps[i] == p && !HasKey(ps[i + 1..], p.key)
  }

  lemma LastStep(ps: seq<Pair>, p: Pair)
    requires |ps| > 0
    ensures HasKey(ps, p.key) <==> ps[0].key == p.key || HasKey(ps[1..], p.key)
    ensures LastWith(ps, p) <==> LastWith(ps[1..], p) || (p == ps[0] && !HasKey(ps[1..], p.key))
  {
  }

  /** A map read from any pairs, keys repeated or not, ends with the last pair of every key. */
  lemma {:induction false} LastPairOfAKeyWins(k: Ty, e: Ty, done: seq<Pair>, ps: seq<Pair>, u: Un)
    requires DistinctKeys(done) && Next(u, EncPairs(ps))
    requires forall i :: 0 <= i < |ps| ==> Fits(ps[i].key, k) && Fits(ps[i].item, e)
    ensures var qs := DecPairs(k, e, |ps|, done, u).0;
            && DistinctKeys(qs)
            && forall p: Pair :: p in qs <==> (p in done && !HasKey(ps, p.key)) || LastWith(ps, p)
    decreases |ps|
  {
    hide Dec, EncPair, Fits, HasKey, LastWith, DistinctKeys, Assign;
    if |ps| == 0 {
      NoKeys();
    } else {
      var first, rest := ps[0], ps[1..];
      NextSplit(u, EncPair(first), EncPairs(rest));
      DecOnePair(k, e, first, u);
      AssignMembers(done, first.key, first.item);
      LastPairOfAKeyWins(k, e, Assign(done, first.key, first.item), rest, Skip(u, |EncPair(first)|));
      forall p: Pair
        ensures HasKey(ps, p.key) <==> first.key == p.key || HasKey(rest, p.key)
        ensures LastWith(ps, p) <==> LastWith(rest, p) || (p == first && !HasKey(rest, p.key))
      {
        LastStep(ps, p);
      }
    }
  }

  lemma NoKeys()
    ensures forall p: Pair :: !HasKey([], p.key) && !LastWith([], p)
  {
  }
}
