/** The marshall and unmarshall objects: a growing buffer that is written, and a buffer that is read. */
module MarshalObjects {
  import opened MarshalSpec
  import opened Wrappers

  const DEFAULT_RPC_SZ := 1024

  /** The four bytes in network order. */
  lemma Bytes32Is(x: nat)
    ensures Bytes32(x) == [x / 0x100_0000 % 0x100, x / 0x1_0000 % 0x100, x / 0x100 % 0x100, x % 0x100]
  {
    Halves(x / 0x1_0000);
    Halves(x);
    assert x / 0x1_0000 / 0x100 == x / 0x100_0000;
    assert x / 0x1_0000 % 0x1_0000 / 0x100 % 0x100 == x / 0x1_0000 / 0x100 % 0x100;
  }

  lemma Halves(x: nat)
    ensures x % 0x1_0000 / 0x100 == x / 0x100 % 0x100
    ensures x % 0x1_0000 % 0x100 == x % 0x100
  {
  }

  lemma {:induction false} EncAllSnoc(vs: seq<Val>, v: Val)
    ensures EncAll(vs + [v]) == EncAll(vs) + Enc(v)
  {
    hide Enc;
    if |vs| == 0 {
      assert ([] + [v])[1..] == [];
    } else {
      EncAllSnoc(vs[1..], v);
      assert (vs + [v])[1..] == vs[1..] + [v];
      Assoc(Enc(vs[0]), EncAll(vs[1..]), Enc(v));
    }
  }

  lemma {:induction false} EncPairsSnoc(ps: seq<Pair>, p: Pair)
    ensures EncPairs(ps + [p]) == EncPairs(ps) + EncPair(p)
  {
    hide EncPair;
    if |ps| == 0 {
      assert ([] + [p])[1..] == [];
    } else {
      EncPairsSnoc(ps[1..], p);
      assert (ps + [p])[1..] == ps[1..] + [p];
      Assoc(EncPair(ps[0]), EncPairs(ps[1..]), EncPair(p));
    }
  }

  function CapacityForByte(capa: nat, ind: nat): nat {
    if ind >= capa then 2 * capa else capa
  }

  function CapacityForBytes(capa: nat, ind: nat, n: nat): nat {
    if ind + n <= capa then capa else if capa > n then 2 * capa else capa + n
  }

  /** Whichever way the capacity is raised, the bytes fit, it is never lowered, and never more than doubled beyond what
      was asked for. */
  lemma RaisedCapacityFits(capa: nat, ind: nat, n: nat)
    requires ind <= capa && 0 < capa
    ensures ind + 1 <= CapacityForByte(capa, ind) && ind + n <= CapacityForBytes(capa, ind, n)
    ensures capa <= CapacityForByte(capa, ind) <= 2 * capa && capa <= CapacityForBytes(capa, ind, n) <= 2 * capa + n
    ensures CapacityForByte(capa, ind) > capa <==> ind == capa
    ensures CapacityForBytes(capa, ind, n) > capa <==> ind + n > capa
  {
  }

  class Marshall {
    var buf: array<Byte>
    var capa: nat
    var ind: nat

    ghost predicate Valid()
      reads this
    {
      capa == buf.Length && ind <= capa && 0 < capa
    }

    /** What has been written, header included. */
    ghost function Text(): seq<Byte>
      requires Valid()
      reads this, buf
    {
      buf[..ind]
    }

    constructor ()
      ensures Valid() && fresh(buf) && ind == RPC_HEADER_SZ && capa == DEFAULT_RPC_SZ
    {
      buf := new Byte[DEFAULT_RPC_SZ];
      capa := DEFAULT_RPC_SZ;
      ind := RPC_HEADER_SZ;
    }

    /** `realloc`: a larger buffer with the same bytes in front. */
    method Grow(n: nat)
      requires Valid() && n >= capa
      modifies this`buf, this`capa
      ensures Valid() && fresh(buf) && capa == n && Text() == old(Text())
    {
      var bigger := new Byte[n];
      for k := 0 to ind
        modifies bigger
        invariant bigger[..k] == buf[..k]
      {
        bigger[k] := buf[k];
      }
      buf, capa := bigger, n;
    }

    method RawByte(x: Byte)
      requires Valid()
      modifies this, buf
      ensures Valid() && (buf == old(buf) || fresh(buf)) && Text() == old(Text()) + [x]
      ensures capa == CapacityForByte(old(capa), old(ind))
      ensures old(ind < capa) ==> buf == old(buf) && buf[..] == old(buf[..][ind := x])
    {
      if ind >= capa {
        Grow(2 * capa);
      }
      buf[ind] := x;
      ind := ind + 1;
    }

    /** After growing the n bytes fit, whichever way the capacity was raised. */
    method RawBytes(p: seq<Byte>)
      requires Valid()
      modifies this, buf
      ensures Valid() && (buf == old(buf) || fresh(buf)) && Text() == old(Text()) + p
      ensures capa == CapacityForBytes(old(capa), old(ind), |p|)
    {
      var n := |p|;
      if ind + n > capa {
        Grow(if capa > n then 2 * capa else capa + n);
      }
      for k := 0 to n
        modifies buf
        invariant buf[..ind + k] == old(Text()) + p[..k]
      {
        buf[ind + k] := p[k];
      }
      ind := ind + n;
    }

    /** An unsigned int, big-endian. When it fits nothing but its four bytes changes. */
    method PutU32(x: nat)
      requires Valid()
      modifies this, buf
      ensures Valid() && (buf == old(buf) || fresh(buf)) && Text() == old(Text()) + Bytes32(x)
      ensures old(ind + 4 <= capa) ==> buf == old(buf) && forall k :: ind <= k < capa ==> buf[k] == old(buf[k])
    {
      hide CapacityForByte, Bytes32;
      Bytes32Is(x);
      RawByte(x / 0x100_0000 % 0x100);
      RawByte(x / 0x1_0000 % 0x100);
      RawByte(x / 0x100 % 0x100);
      RawByte(x % 0x100);
    }

    method PutU16(x: nat)
      requires Valid()
      modifies this, buf
      ensures Valid() && (buf == old(buf) || fresh(buf)) && Text() == old(Text()) + Bytes16(x)
    {
      RawByte(x / 0x100 % 0x100);
      RawByte(x % 0x100);
    }

    method PutU64(x: nat)
      requires Valid()
      modifies this, buf
      ensures Valid() && (buf == old(buf) || fresh(buf)) && Text() == old(Text()) + Bytes64(x)
    {
      PutU32(x / 0x1_0000_0000 % 0x1_0000_0000);
      PutU32(x % 0x1_0000_0000);
    }

    /** `<<` for every type: appends exactly the value's bytes. */
    method Put(v: Val)
      requires Valid()
      modifies this, buf
      ensures Valid() && (buf == old(buf) || fresh(buf)) && Text() == old(Text()) + Enc(v)
      decreases v, 1
    {
      match v {
        case U8(n) => RawByte(n % 0x100);
        case U16(n) => PutU16(n);
        case U32(n) => PutU32(n);
        case I32(i) => PutU32(Unsigned(i));
        case U64(n) => PutU64(n);
        case Str(s) =>
          PutU32(|s|);
          RawBytes(s);
        case Vec(vs) => PutVec(vs);
        case Map(ps) => PutMap(ps);
      }
    }

    method PutVec(vs: seq<Val>)
      requires Valid()
      modifies this, buf
      ensures Valid() && (buf == old(buf) || fresh(buf)) && Text() == old(Text()) + Enc(Vec(vs))
      decreases vs
    {
      PutU32(|vs|);
      ghost var start := Text();
      for i := 0 to |vs|
        invariant Valid() && (buf == old(buf) || fresh(buf)) && Text() == start + EncAll(vs[..i])
      {
        Put(vs[i]);
        AppendOne(start, vs[..i], vs[i]);
        assert vs[..i + 1] == vs[..i] + [vs[i]];
      }
      assert vs[..|vs|] == vs;
      Assoc(old(Text()), Bytes32(|vs|), EncAll(vs));
    }

    method PutMap(ps: seq<Pair>)
      requires Valid()
      modifies this, buf
      ensures Valid() && (buf == old(buf) || fresh(buf)) && Text() == old(Text()) + Enc(Map(ps))
      decreases ps
    {
      PutU32(|ps|);
      ghost var start := Text();
      for i := 0 to |ps|
        invariant Valid() && (buf == old(buf) || fresh(buf)) && Text() == start + EncPairs(ps[..i])
      {
        PutPair(ps[i]);
        EncPairsSnoc(ps[..i], ps[i]);
        Assoc(start, EncPairs(ps[..i]), EncPair(ps[i]));
        assert ps[..i + 1] == ps[..i] + [ps[i]];
      }
      assert ps[..|ps|] == ps;
      Assoc(old(Text()), Bytes32(|ps|), EncPairs(ps));
    }

    method PutPair(p: Pair)
      requires Valid()
      modifies this, buf
      ensures Valid() && (buf == old(buf) || fresh(buf)) && Text() == old(Text()) + EncPair(p)
      decreases p
    {
      Put(p.key);
      Put(p.item);
    }

    method PutHeader(h: ReqHeader)
      requires Valid() && ind == 4 && RPC_HEADER_SZ <= capa
      modifies this, buf
      ensures Valid() && buf == old(buf) && capa == old(capa) && ind == RPC_HEADER_SZ
      ensures Text() == old(Text()) + HeaderBytes(h) && buf[RPC_HEADER_SZ..] == old(buf[RPC_HEADER_SZ..])
    {
      HeaderText(Text(), h);
      PutU32(Unsigned(h.xid));
      PutU32(Unsigned(h.proc));
      PutU32(h.cltNonce);
      PutU32(h.srvNonce);
      PutU32(Unsigned(h.xidRep));
    }

    /** `pack_req_header`: goes back behind the size field, writes the header and returns; size and body stay. */
    method PackReqHeader(h: ReqHeader)
      requires Valid() && ind >= RPC_HEADER_SZ
      modifies this, buf
      ensures Valid() && buf == old(buf) && ind == old(ind)
      ensures Text() == old(buf[..4]) + HeaderBytes(h) + old(buf[RPC_HEADER_SZ..ind])
    {
      var savedSz := ind;
      ghost var body := buf[RPC_HEADER_SZ..ind];
      ind := 4;
      PutHeader(h);
      ind := savedSz;
      assert buf[..ind] == buf[..RPC_HEADER_SZ] + buf[RPC_HEADER_SZ..][..|body|];
    }
  }

  lemma HeaderText(t: seq<Byte>, h: ReqHeader)
    ensures t + HeaderBytes(h) ==
              t + Bytes32(Unsigned(h.xid)) + Bytes32(Unsigned(h.proc)) + Bytes32(h.cltNonce) + Bytes32(h.srvNonce)
                + Bytes32(Unsigned(h.xidRep))
  {
  }

  lemma AppendOne(t: seq<Byte>, vs: seq<Val>, v: Val)
    ensures t + EncAll(vs + [v]) == t + EncAll(vs) + Enc(v)
  {
    EncAllSnoc(vs, v);
    Assoc(t, EncAll(vs), Enc(v));
  }

  class Unmarshall {
    const buf: seq<Byte>
    var ind: nat
    var ok: bool

    function State(): Un
      reads this
    {
      Un(buf, ind, ok)
    }

    /** A pdu from the network. */
    constructor (pdu: seq<Byte>)
      ensures State() == Un(pdu, 0, true)
    {
      buf, ind, ok := pdu, 0, true;
    }

    /** `take_in`: stands behind the header, and is ok when there is room for one. */
    constructor TakeIn(pdu: seq<Byte>)
      ensures State() == Un(pdu, RPC_HEADER_SZ, |pdu| >= RPC_HEADER_SZ)
    {
      buf, ind, ok := pdu, RPC_HEADER_SZ, |pdu| >= RPC_HEADER_SZ;
    }

    method RawByte() returns (c: Byte)
      modifies this
      ensures (c, State()) == MarshalSpec.RawByte(old(State()))
    {
      c := 0;
      if ind >= |buf| {
        ok := false;
      } else {
        c := buf[ind];
        ind := ind + 1;
      }
    }

    method RawBytes(n: nat) returns (s: seq<Byte>)
      modifies this
      ensures (s, State()) == MarshalSpec.RawBytes(old(State()), n)
    {
      s := [];
      if ind + n > |buf| {
        ok := false;
      } else {
        s := buf[ind..ind + n];
        ind := ind + n;
      }
    }

    method GetU32() returns (x: nat)
      modifies this
      ensures (x, State()) == Read32(old(State())) && x < 0x1_0000_0000
    {
      var a: int := RawByte();
      var b: int := RawByte();
      var c: int := RawByte();
      var d: int := RawByte();
      x := a * 0x100_0000 + b * 0x1_0000 + c * 0x100 + d;
    }

    /** `>>` for every type. */
    method Get(ty: Ty) returns (v: Val)
      modifies this
      ensures (v, State()) == Dec(ty, old(State()))
      decreases ty, 1
    {
      match ty {
        case TU8 =>
          var c := RawByte();
          v := U8(c);
        case TU16 =>
          var a: int := RawByte();
          var b: int := RawByte();
          v := U16(a * 0x100 + b);
        case TU32 =>
          var n := GetU32();
          v := U32(n);
        case TI32 =>
          var n := GetU32();
          v := I32(Signed(n));
        case TU64 =>
          var h := GetU32();
          var l := GetU32();
          v := U64(h * 0x1_0000_0000 + l);
        case TStr =>
          var s: seq<Byte> := [];
          var n := GetU32();
          if ok {
            s := RawBytes(n);
          }
          v := Str(s);
        case TVec(e) =>
          var vs := GetVec(e, []);
          v := Vec(vs);
        case TMap(k, e) =>
          var ps := GetMap(k, e);
          v := Map(ps);
      }
    }

    /** Pushes onto the vector it is given, which it does not clear. */
    method GetVec(e: Ty, v: seq<Val>) returns (vs: seq<Val>)
      modifies this
      ensures var (n, u) := Read32(old(State())); (vs, State()) == DecMore(e, n, v, u)
      decreases TVec(e), 0
    {
      hide Dec, Read32;
      var n := GetU32();
      ghost var all := DecMore(e, n, v, State());
      vs := v;
      for i := 0 to n
        invariant DecMore(e, n - i, vs, State()) == all
      {
        var z := Get(e);
        vs := vs + [z];
      }
    }

    /** Clears the map first. */
    method GetMap(k: Ty, e: Ty) returns (ps: seq<Pair>)
      modifies this
      ensures var (n, u) := Read32(old(State())); (ps, State()) == DecPairs(k, e, n, [], u)
      decreases TMap(k, e), 0
    {
      hide Dec, Read32;
      var n := GetU32();
      ghost var all := DecPairs(k, e, n, [], State());
      ps := [];
      for i := 0 to n
        invariant DecPairs(k, e, n - i, ps, State()) == all
      {
        var a := Get(k);
        var b := Get(e);
        ps := Assign(ps, a, b);
      }
    }

    method UnpackReqHeader() returns (h: ReqHeader)
      modifies this
      ensures (h, State()) == DecHeader(old(State()))
    {
      hide Read32;
      ind := 4;
      var xid := GetU32();
      var proc := GetU32();
      var cltNonce := GetU32();
      var srvNonce := GetU32();
      var xidRep := GetU32();
      h := ReqHeader(Signed(xid), Signed(proc), cltNonce, srvNonce, Signed(xidRep));
      ind := RPC_HEADER_SZ;
    }

    method IsOkDone() returns (r: bool)
      ensures r <==> OkDone(State())
    {
      r := ok && ind == |buf|;
    }
  }

  /** The sender: marshals the arguments and packs the header last. */
  method Send(vs: seq<Val>, h: ReqHeader) returns (pdu: seq<Byte>)
    ensures |pdu| >= 4 && pdu == Request(pdu[..4], h, vs)
  {
    var m := new Marshall();
    ghost var blank := m.Text();
    for i := 0 to |vs|
      invariant m.Valid() && fresh(m.buf) && m.Text() == blank + EncAll(vs[..i])
    {
      m.Put(vs[i]);
      AppendOne(blank, vs[..i], vs[i]);
      assert vs[..i + 1] == vs[..i] + [vs[i]];
    }
    assert vs[..|vs|] == vs;
    assert m.buf[RPC_HEADER_SZ..m.ind] == EncAll(vs);
    m.PackReqHeader(h);
    pdu := m.buf[..m.ind];
  }

  /** Sender and receiver together: whatever mix of values is marshalled, with the header packed last, is read back
      unchanged, and okdone is true. */
  method SendAndReceive(vs: seq<Val>, tys: seq<Ty>, h: ReqHeader) returns (g: ReqHeader, ws: seq<Val>, done: bool)
    requires AllFit(vs, tys) && HeaderFits(h)
    ensures g == h && ws == vs && done
  {
    var pdu := Send(vs, h);
    RequestRoundTrip(pdu[..4], h, vs, tys);
    var u := new Unmarshall(pdu);
    g := u.UnpackReqHeader();
    ws, done := ReceiveArgs(u, tys);
  }

  method ReceiveArgs(u: Unmarshall, tys: seq<Ty>) returns (ws: seq<Val>, done: bool)
    modifies u
    ensures (ws, u.State()) == DecArgs(tys, old(u.State())) && done == OkDone(u.State())
  {
    ws := [];
    ghost var all := DecArgs(tys, u.State());
    for i := 0 to |tys|
      invariant ws + DecArgs(tys[i..], u.State()).0 == all.0 && DecArgs(tys[i..], u.State()).1 == all.1
    {
      assert tys[i..][1..] == tys[i + 1..];
      var w := u.Get(tys[i]);
      assert ws + ([w] + DecArgs(tys[i + 1..], u.State()).0) == ws + [w] + DecArgs(tys[i + 1..], u.State()).0;
      ws := ws + [w];
    }
    assert ws + [] == ws;
    done := u.IsOkDone();
  }
}
