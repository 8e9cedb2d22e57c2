/**
 The cursor-driven decoders and buffer-filling encoders of tpt-bgp/src/attributes.rs and
 tpt-bgp/src/wire.rs, proved to compute the functions of BgpCodec.
 */
module BgpStream {
  import opened BigEndian
  import Limbs
  import opened Wire
  import opened BgpTypes
  import opened BgpCodec
  import opened Wrappers

  // ----- Decoding -----

  /** The address bytes are read one at a time into a zeroed buffer. */
  method FillAddress(r: Reader, n: nat, size: nat) returns (res: Result<seq<byte>, Error>)
    requires r.Valid() && n <= size
    modifies r
    ensures r.Valid()
    ensures match TakeBytes(old(r.Unread()), n) {
            case Ok(b, rest) => res == Success(b + Zeros(size - n)) && r.Unread() == rest
            case Err(e) => res == Failure(e)
            }
  {
    var addr := Zeros(size);
    ghost var start := r.Unread();
    for i := 0 to n
      invariant r.Valid() && i <= |start| && r.Unread() == start[i..]
      invariant addr == start[..i] + Zeros(size - i)
    {
      var b := r.Byte();
      if b.Failure? { return Failure(b.error); }
      assert start[..i + 1] == start[..i] + [start[i]];
      addr := addr[i := b.value];
    }
    res := Success(addr);
  }

  method ReadPrefix(r: Reader, v6: bool) returns (res: Result<Prefix, Error>)
    requires r.Valid()
    modifies r
    ensures r.Agrees(res, ParsePrefix(old(r.Unread()), v6))
  {
    var bits := r.Byte();
    if bits.Failure? { return Failure(bits.error); }
    if bits.value > (if v6 then 128 else 32) { return Failure(Truncated); }
    var addr := FillAddress(r, PrefixBytes(bits.value), if v6 then 16 else 4);
    if addr.Failure? { return Failure(addr.error); }
    if v6 { res := Success(V6(addr.value, bits.value)); } else { res := Success(V4(addr.value, bits.value)); }
  }

  method ReadPrefixes(r: Reader, v6: bool) returns (res: Result<seq<Prefix>, Error>)
    requires r.Valid()
    modifies r
    ensures r.Agrees(res, Many(PrefixParser(v6), old(r.Unread()), []))
  {
    var list: seq<Prefix> := [];
    while r.pos < |r.data|
      invariant r.Valid()
      invariant Many(PrefixParser(v6), r.Unread(), list) == old(Many(PrefixParser(v6), r.Unread(), []))
      decreases |r.data| - r.pos
    {
      var p := ReadPrefix(r, v6);
      if p.Failure? { return Failure(p.error); }
      list := list + [p.value];
    }
    res := Success(list);
  }

  method ReadAsn(r: Reader, as4: bool) returns (res: Result<u32, Error>)
    requires r.Valid()
    modifies r
    ensures r.Agrees(res, ParseAsn(old(r.Unread()), as4))
  {
    if as4 {
      res := r.U32();
    } else {
      var n := r.U16();
      if n.Failure? { return Failure(n.error); }
      res := Success(n.value);
    }
  }

  method ReadAsns(r: Reader, count: nat, as4: bool) returns (res: Result<seq<u32>, Error>)
    requires r.Valid()
    modifies r
    ensures r.Agrees(res, Times(AsnParser(as4), count, old(r.Unread()), []))
  {
    var asns: seq<u32> := [];
    for i := 0 to count
      invariant r.Valid()
      invariant Times(AsnParser(as4), count - i, r.Unread(), asns) == old(Times(AsnParser(as4), count, r.Unread(), []))
    {
      var v := ReadAsn(r, as4);
      if v.Failure? { return Failure(v.error); }
      asns := asns + [v.value];
    }
    res := Success(asns);
  }

  method ReadSegment(r: Reader, as4: bool) returns (res: Result<Segment, Error>)
    requires r.Valid()
    modifies r
    ensures r.Agrees(res, ParseSegment(old(r.Unread()), as4))
    ensures res.Success? ==> r.pos > old(r.pos)
  {
    var kind := r.Byte();
    if kind.Failure? { return Failure(kind.error); }
    if kind.value != 1 && kind.value != 2 { return Failure(Truncated); }
    var count := r.Byte();
    if count.Failure? { return Failure(count.error); }
    TimesShrinks(r.Unread(), count.value, [], as4);
    var asns := ReadAsns(r, count.value, as4);
    if asns.Failure? { return Failure(asns.error); }
    res := Success(Segment(if kind.value == 1 then SetSegment else SequenceSegment, asns.value));
  }

  lemma {:induction false} TimesShrinks(s: seq<byte>, n: nat, acc: seq<u32>, as4: bool)
    ensures var r := Times(AsnParser(as4), n, s, acc); r.Ok? ==> |r.rest| <= |s|
  {
    if n > 0 && ParseAsn(s, as4).Ok? {
      TimesShrinks(ParseAsn(s, as4).rest, n - 1, acc + [ParseAsn(s, as4).value], as4);
    }
  }

  method ReadPath(r: Reader, as4: bool) returns (res: Result<AsPath, Error>)
    requires r.Valid()
    modifies r
    ensures r.Agrees(res, Many(SegmentParser(as4), old(r.Unread()), []))
  {
    var path: AsPath := [];
    while r.pos < |r.data|
      invariant r.Valid()
      invariant Many(SegmentParser(as4), r.Unread(), path) == old(Many(SegmentParser(as4), r.Unread(), []))
      decreases |r.data| - r.pos
    {
      var g := ReadSegment(r, as4);
      if g.Failure? { return Failure(g.error); }
      path := path + [g.value];
    }
    res := Success(path);
  }

  method ReadAggregator(r: Reader, as4: bool) returns (res: Result<Aggregator, Error>)
    requires r.Valid()
    modifies r
    ensures res == ParseAggregator(old(r.Unread()), as4)
  {
    var asn := ReadAsn(r, as4);
    if asn.Failure? { return Failure(asn.error); }
    var addr := r.Bytes(4);
    if addr.Failure? { return Failure(addr.error); }
    res := Success(Aggregator(asn.value, addr.value));
  }

  method ReadClusters(r: Reader) returns (list: seq<Quad>)
    requires r.Valid()
    modifies r
    ensures list == ParseClusters(old(r.Unread()), [])
  {
    list := [];
    while |r.data| - r.pos >= 4
      invariant r.Valid() && ParseClusters(r.Unread(), list) == old(ParseClusters(r.Unread(), []))
      decreases |r.data| - r.pos
    {
      var c := r.Bytes(4);
      list := list + [c.value];
    }
  }

  method ReadReach(r: Reader) returns (res: Result<MpReach, Error>)
    requires r.Valid()
    modifies r
    ensures res == ParseReach(old(r.Unread()))
  {
    var afi := r.U16();
    if afi.Failure? { return Failure(afi.error); }
    var safi := r.Byte();
    if safi.Failure? { return Failure(safi.error); }
    var hop := r.Vector(1);
    if hop.Failure? { return Failure(hop.error); }
    var reserved := r.Byte();
    if reserved.Failure? { return Failure(reserved.error); }
    var nlri := ReadPrefixes(r, afi.value == 2);
    if nlri.Failure? { return Failure(nlri.error); }
    res := Success(MpReach(afi.value, safi.value, ParseNextHop(hop.value), nlri.value));
  }

  method ReadUnreach(r: Reader) returns (res: Result<MpUnreach, Error>)
    requires r.Valid()
    modifies r
    ensures res == ParseUnreach(old(r.Unread()))
  {
    var afi := r.U16();
    if afi.Failure? { return Failure(afi.error); }
    var safi := r.Byte();
    if safi.Failure? { return Failure(safi.error); }
    var withdrawn := ReadPrefixes(r, afi.value == 2);
    if withdrawn.Failure? { return Failure(withdrawn.error); }
    res := Success(MpUnreach(afi.value, safi.value, withdrawn.value));
  }

  method ReadStructured(code: byte, v: seq<byte>, as4: bool) returns (res: Result<PathAttribute, Error>)
    requires code in {2, 7, 10, 14, 15}
    ensures res == ParseStructured(code, v, as4)
  {
    var vr := new Reader(v);
    if code == 2 {
      var p := ReadPath(vr, as4);
      if p.Failure? { return Failure(p.error); }
      res := Success(AsPathAttr(p.value));
    } else if code == 7 {
      var g := ReadAggregator(vr, as4);
      if g.Failure? { return Failure(g.error); }
      res := Success(AggregatorAttr(g.value));
    } else if code == 10 {
      var list := ReadClusters(vr);
      res := Success(ClusterList(list));
    } else if code == 14 {
      var m := ReadReach(vr);
      if m.Failure? { return Failure(m.error); }
      res := Success(MpReachAttr(m.value));
    } else {
      var m := ReadUnreach(vr);
      if m.Failure? { return Failure(m.error); }
      res := Success(MpUnreachAttr(m.value));
    }
  }

  method ReadRaw(r: Reader) returns (res: Result<Raw, Error>)
    requires r.Valid()
    modifies r
    ensures r.Agrees(res, ParseRaw(old(r.Unread())))
  {
    var flags := r.Byte();
    if flags.Failure? { return Failure(flags.error); }
    var code := r.Byte();
    if code.Failure? { return Failure(code.error); }
    var v := r.Vector(if flags.value / 16 % 2 == 1 then 2 else 1);
    if v.Failure? { return Failure(v.error); }
    res := Success(Raw(flags.value, code.value, v.value));
  }

  method ReadAttribute(r: Reader, as4: bool) returns (res: Result<PathAttribute, Error>)
    requires r.Valid()
    modifies r
    ensures r.Agrees(res, ParseAttribute(old(r.Unread()), as4))
  {
    var raw := ReadRaw(r);
    if raw.Failure? { return Failure(raw.error); }
    if raw.value.code in {2, 7, 10, 14, 15} {
      res := ReadStructured(raw.value.code, raw.value.value, as4);
    } else {
      res := ParseValue(raw.value.code, raw.value.flags / 64 % 2 == 1, raw.value.value, as4);
    }
  }

  method ReadAttributes(r: Reader, as4: bool) returns (res: Result<seq<PathAttribute>, Error>)
    requires r.Valid()
    modifies r
    ensures r.Agrees(res, Many(AttributeParser(as4), old(r.Unread()), []))
  {
    var list: seq<PathAttribute> := [];
    while r.pos < |r.data|
      invariant r.Valid()
      invariant Many(AttributeParser(as4), r.Unread(), list) == old(Many(AttributeParser(as4), r.Unread(), []))
      decreases |r.data| - r.pos
    {
      var a := ReadAttribute(r, as4);
      if a.Failure? { return Failure(a.error); }
      list := list + [a.value];
    }
    res := Success(list);
  }

  method ReadAllPrefixes(b: seq<byte>) returns (res: Result<seq<Prefix>, Error>)
    ensures match Many(PrefixParser(false), b, []) {
            case Ok(ps, _) => res == Success(ps)
            case Err(e) => res == Failure(e)
            }
  {
    var r := new Reader(b);
    res := ReadPrefixes(r, false);
  }

  method ReadAllAttributes(b: seq<byte>, as4: bool) returns (res: Result<seq<PathAttribute>, Error>)
    ensures match Many(AttributeParser(as4), b, []) {
            case Ok(list, _) => res == Success(list)
            case Err(e) => res == Failure(e)
            }
  {
    var r := new Reader(b);
    res := ReadAttributes(r, as4);
  }

  method ReadAnnounced(r: Reader, withdrawn: seq<Prefix>, as4: bool) returns (res: Result<Update, Error>)
    requires r.Valid()
    modifies r
    ensures res == ParseAnnounced(withdrawn, old(r.Unread()), as4)
  {
    var a := r.Vector(2);
    if a.Failure? { return Failure(a.error); }
    var attributes := ReadAllAttributes(a.value, as4);
    if attributes.Failure? { return Failure(attributes.error); }
    var nlri := ReadPrefixes(r, false);
    if nlri.Failure? { return Failure(nlri.error); }
    res := Success(Update(withdrawn, attributes.value, nlri.value));
  }

  /** `decode_update` */
  method ReadUpdate(body: seq<byte>, as4: bool) returns (res: Result<Update, Error>)
    ensures res == ParseUpdate(body, as4)
  {
    var r := new Reader(body);
    var w := r.Vector(2);
    if w.Failure? { return Failure(w.error); }
    var withdrawn := ReadAllPrefixes(w.value);
    if withdrawn.Failure? { return Failure(withdrawn.error); }
    res := ReadAnnounced(r, withdrawn.value, as4);
  }

  // ----- Encoding -----

  method WritePrefixes(ps: seq<Prefix>) returns (buf: seq<byte>)
    ensures buf == Concat(EncodePrefix, ps)
  {
    buf := [];
    for i := 0 to |ps|
      invariant buf == Concat(EncodePrefix, ps[..i])
    {
      ConcatSnoc(EncodePrefix, ps, i);
      buf := buf + ([ps[i].Bits()] + ps[i].Octets()[..PrefixBytes(ps[i].Bits())]);
    }
    assert ps[..|ps|] == ps;
  }

  method WriteAsns(asns: seq<u32>, as4: bool) returns (buf: seq<byte>)
    ensures buf == Concat(AsnEncoder(as4), asns)
  {
    buf := [];
    for i := 0 to |asns|
      invariant buf == Concat(AsnEncoder(as4), asns[..i])
    {
      ConcatSnoc(AsnEncoder(as4), asns, i);
      buf := buf + (if as4 then BeBytes(asns[i], 4) else BeBytes(asns[i] % 0x1_0000, 2));
      LowHalf(asns[i]);
    }
    assert asns[..|asns|] == asns;
  }

  /** Truncation to sixteen bits keeps the two low bytes. */
  lemma LowHalf(x: nat)
    ensures BeBytes(x % 0x1_0000, 2) == BeBytes(x, 2)
  {
    var q, r := x / 0x1_0000, x % 0x1_0000;
    Limbs.DivModUnique(x, 256, 256 * q + r / 256, r % 256);
    Limbs.DivModUnique(x / 256, 256, q, r / 256);
    Limbs.DivModUnique(r / 256, 256, 0, r / 256);
  }

  method WritePath(path: AsPath, as4: bool) returns (buf: seq<byte>)
    ensures buf == Concat(SegmentEncoder(as4), path)
  {
    buf := [];
    for i := 0 to |path|
      invariant buf == Concat(SegmentEncoder(as4), path[..i])
    {
      ConcatSnoc(SegmentEncoder(as4), path, i);
      var asns := WriteAsns(path[i].asns, as4);
      buf := buf + ([path[i].kind.Code()] + ([|path[i].asns| % 256] + asns));
    }
    assert path[..|path|] == path;
  }

  method WriteClusters(list: seq<Quad>) returns (buf: seq<byte>)
    ensures buf == Concat(EncodeCluster, list)
  {
    buf := [];
    for i := 0 to |list|
      invariant buf == Concat(EncodeCluster, list[..i])
    {
      ConcatSnoc(EncodeCluster, list, i);
      buf := buf + list[i];
    }
    assert list[..|list|] == list;
  }

  method WriteValue(a: PathAttribute, as4: bool) returns (value: seq<byte>)
    ensures value == EncodeValue(a, as4)
  {
    match a
    case AsPathAttr(p) => value := WritePath(p, as4);
    case ClusterList(list) => value := WriteClusters(list);
    case MpReachAttr(m) =>
      var nlri := WritePrefixes(m.nlri);
      value := BeBytes(m.afi, 2) + ([m.safi] + (PutVector(EncodeNextHop(m.nextHop), 1) + ([0] + nlri)));
    case MpUnreachAttr(m) =>
      var withdrawn := WritePrefixes(m.withdrawn);
      value := BeBytes(m.afi, 2) + ([m.safi] + withdrawn);
    case _ => value := EncodeValue(a, as4);
  }

  method WriteAttributes(list: seq<PathAttribute>, as4: bool) returns (buf: seq<byte>)
    ensures buf == Concat(AttributeEncoder(as4), list)
  {
    buf := [];
    for i := 0 to |list|
      invariant buf == Concat(AttributeEncoder(as4), list[..i])
    {
      ConcatSnoc(AttributeEncoder(as4), list, i);
      var value := WriteValue(list[i], as4);
      buf := buf + EncodeRaw(Flags(list[i]), TypeCode(list[i]), value);
    }
    assert list[..|list|] == list;
  }

  /** `encode_update` */
  method WriteUpdate(u: Update, as4: bool) returns (buf: seq<byte>)
    ensures buf == EncodeUpdate(u, as4)
  {
    var withdrawn := WritePrefixes(u.withdrawn);
    var attributes := WriteAttributes(u.attributes, as4);
    var nlri := WritePrefixes(u.nlri);
    buf := PutVector(withdrawn, 2) + (PutVector(attributes, 2) + nlri);
  }
}
