/**
 The encodings of BGP path attributes and UPDATE messages, and what the decoder makes of bytes
 (tpt-bgp/src/attributes.rs and tpt-bgp/src/wire.rs). Decoding undoes encoding in both AS widths.
 */
module BgpCodec {
  import opened BigEndian
  import opened Wire
  import opened BgpTypes
  import opened Sequences
  import opened Wrappers

  // ----- Prefixes -----

  function PrefixBytes(bits: byte): (n: nat)
  {
    (bits + 7) / 8
  }

  function Zeros(n: nat): (z: seq<byte>)
    ensures |z| == n
  {
    seq(n, _ => 0)
  }

  function EncodePrefix(p: Prefix): (b: seq<byte>)
  {
    [p.Bits()] + p.Octets()[..PrefixBytes(p.Bits())]
  }

  function ParsePrefix(s: seq<byte>, v6: bool): (r: Parsed<Prefix>)
    ensures r.Ok? ==> |r.rest| < |s|
  {
    var bits := TakeByte(s);
    if bits.Err? then Err(bits.error)
    else if bits.value > (if v6 then 128 else 32) then Err(Truncated)
    else
      var b := TakeBytes(bits.rest, PrefixBytes(bits.value));
      if b.Err? then Err(b.error)
      else if v6 then Ok(V6(b.value + Zeros(16 - |b.value|), bits.value), b.rest)
      else Ok(V4(b.value + Zeros(4 - |b.value|), bits.value), b.rest)
  }

  function PrefixParser(v6: bool): (p: Parser<Prefix>)
  {
    s => ParsePrefix(s, v6)
  }

  /** The address bytes past the prefix length are zero. */
  predicate PrefixOk(p: Prefix)
  {
    forall i :: PrefixBytes(p.Bits()) <= i < |p.Octets()| ==> p.Octets()[i] == 0
  }

  lemma PrefixParses(p: Prefix, rest: seq<byte>)
    requires PrefixOk(p)
    ensures ParsePrefix(EncodePrefix(p) + rest, p.V6?) == Ok(p, rest)
  {
    var b := p.Octets()[..PrefixBytes(p.Bits())];
    Joined([p.Bits()], b, rest);
    ByteParses(p.Bits(), b + rest);
    BytesParse(b, rest);
    assert b + Zeros(|p.Octets()| - |b|) == p.Octets();
  }

  lemma PrefixReads(p: Prefix)
    requires PrefixOk(p)
    ensures Reads(PrefixParser(p.V6?), EncodePrefix, p)
  {
    forall rest ensures PrefixParser(p.V6?)(EncodePrefix(p) + rest) == Ok(p, rest) {
      PrefixParses(p, rest);
    }
  }

  predicate PrefixesOk(ps: seq<Prefix>, v6: bool)
  {
    forall i :: 0 <= i < |ps| ==> PrefixOk(ps[i]) && ps[i].V6? == v6
  }

  lemma PrefixesParse(ps: seq<Prefix>, v6: bool)
    requires PrefixesOk(ps, v6)
    ensures Many(PrefixParser(v6), Concat(EncodePrefix, ps), []) == Ok(ps, [])
  {
    forall i | 0 <= i < |ps| ensures Reads(PrefixParser(v6), EncodePrefix, ps[i]) {
      PrefixReads(ps[i]);
    }
    ManyReadsAll(PrefixParser(v6), EncodePrefix, ps);
  }

  // ----- AS_PATH -----

  function EncodeAsn(asn: u32, as4: bool): (b: seq<byte>)
  {
    BeBytes(asn, if as4 then 4 else 2)
  }

  function ParseAsn(s: seq<byte>, as4: bool): (r: Parsed<u32>)
  {
    if as4 then TakeU32(s)
    else
      var n := TakeU16(s);
      if n.Err? then Err(n.error) else Ok(n.value, n.rest)
  }

  function AsnEncoder(as4: bool): (e: u32 -> seq<byte>)
  {
    asn => EncodeAsn(asn, as4)
  }

  function AsnParser(as4: bool): (p: Parser<u32>)
  {
    s => ParseAsn(s, as4)
  }

  predicate AsnOk(asn: u32, as4: bool)
  {
    as4 || asn <= 0xffff
  }

  lemma AsnParses(asn: u32, as4: bool, rest: seq<byte>)
    requires AsnOk(asn, as4)
    ensures ParseAsn(EncodeAsn(asn, as4) + rest, as4) == Ok(asn, rest)
  {
    if as4 { U32Parses(asn, rest); } else { U16Parses(asn, rest); }
  }

  lemma AsnReads(asn: u32, as4: bool)
    requires AsnOk(asn, as4)
    ensures Reads(AsnParser(as4), AsnEncoder(as4), asn)
  {
    forall rest ensures AsnParser(as4)(AsnEncoder(as4)(asn) + rest) == Ok(asn, rest) {
      AsnParses(asn, as4, rest);
    }
  }

  lemma AsnsParse(asns: seq<u32>, as4: bool, rest: seq<byte>)
    requires forall i :: 0 <= i < |asns| ==> AsnOk(asns[i], as4)
    ensures Times(AsnParser(as4), |asns|, Concat(AsnEncoder(as4), asns) + rest, []) == Ok(asns, rest)
  {
    forall i | 0 <= i < |asns| ensures Reads(AsnParser(as4), AsnEncoder(as4), asns[i]) {
      AsnReads(asns[i], as4);
    }
    TimesReadsAll(AsnParser(as4), AsnEncoder(as4), asns, rest);
  }

  /** The count byte keeps the low eight bits of the number of ASNs. */
  function EncodeSegment(g: Segment, as4: bool): (b: seq<byte>)
  {
    [g.kind.Code()] + ([|g.asns| % 256] + Concat(AsnEncoder(as4), g.asns))
  }

  function ParseSegment(s: seq<byte>, as4: bool): (r: Parsed<Segment>)
  {
    var kind := TakeByte(s);
    if kind.Err? then Err(kind.error)
    else if kind.value != 1 && kind.value != 2 then Err(Truncated)
    else
      var count := TakeByte(kind.rest);
      if count.Err? then Err(count.error)
      else
        var asns := Times(AsnParser(as4), count.value, count.rest, []);
        if asns.Err? then Err(asns.error)
        else Ok(Segment(if kind.value == 1 then SetSegment else SequenceSegment, asns.value), asns.rest)
  }

  function SegmentEncoder(as4: bool): (e: Segment -> seq<byte>)
  {
    g => EncodeSegment(g, as4)
  }

  function SegmentParser(as4: bool): (p: Parser<Segment>)
  {
    s => ParseSegment(s, as4)
  }

  predicate SegmentOk(g: Segment, as4: bool)
  {
    |g.asns| <= 255 && forall i :: 0 <= i < |g.asns| ==> AsnOk(g.asns[i], as4)
  }

  lemma SegmentParses(g: Segment, as4: bool, rest: seq<byte>)
    requires SegmentOk(g, as4)
    ensures ParseSegment(EncodeSegment(g, as4) + rest, as4) == Ok(g, rest)
  {
    var list := Concat(AsnEncoder(as4), g.asns);
    AsnsParse(g.asns, as4, rest);
    Joined([g.kind.Code()], [|g.asns| % 256] + list, rest);
    Joined([|g.asns| % 256], list, rest);
    ByteParses(g.kind.Code(), [|g.asns| % 256] + (list + rest));
    ByteParses(|g.asns|, list + rest);
  }

  lemma SegmentReads(g: Segment, as4: bool)
    requires SegmentOk(g, as4)
    ensures Reads(SegmentParser(as4), SegmentEncoder(as4), g)
  {
    forall rest ensures SegmentParser(as4)(SegmentEncoder(as4)(g) + rest) == Ok(g, rest) {
      SegmentParses(g, as4, rest);
    }
  }

  predicate PathOk(path: AsPath, as4: bool)
  {
    forall i :: 0 <= i < |path| ==> SegmentOk(path[i], as4)
  }

  lemma PathParses(path: AsPath, as4: bool)
    requires PathOk(path, as4)
    ensures Many(SegmentParser(as4), Concat(SegmentEncoder(as4), path), []) == Ok(path, [])
  {
    forall i | 0 <= i < |path| ensures Reads(SegmentParser(as4), SegmentEncoder(as4), path[i]) {
      SegmentReads(path[i], as4);
    }
    ManyReadsAll(SegmentParser(as4), SegmentEncoder(as4), path);
  }

  // ----- Next hops, cluster lists, multiprotocol reachability -----

  function EncodeNextHop(h: NextHop): (b: seq<byte>)
  {
    match h
    case Ipv4(a) => a
    case Ipv6(a) => a
    case Ipv6LinkLocal(g, l) => g + l
    case Other(raw) => raw
  }

  function ParseNextHop(b: seq<byte>): (h: NextHop)
  {
    if |b| == 4 then Ipv4(b)
    else if |b| == 16 then Ipv6(b)
    else if |b| == 32 then Ipv6LinkLocal(b[..16], b[16..])
    else Other(b)
  }

  /** An uninterpreted next hop does not have a length that is interpreted. */
  predicate NextHopOk(h: NextHop)
  {
    h.Other? ==> |h.raw| <= 255 && |h.raw| != 4 && |h.raw| != 16 && |h.raw| != 32
  }

  lemma NextHopParses(h: NextHop)
    requires NextHopOk(h)
    ensures |EncodeNextHop(h)| <= 255 && ParseNextHop(EncodeNextHop(h)) == h
  {
    if h.Ipv6LinkLocal? {
      assert (h.global + h.local)[..16] == h.global && (h.global + h.local)[16..] == h.local;
    }
  }

  /** Whole groups of four bytes; what is left over is ignored. */
  function ParseClusters(s: seq<byte>, acc: seq<Quad>): (r: seq<Quad>)
    decreases |s|
  {
    if |s| < 4 then acc else ParseClusters(s[4..], acc + [s[..4]])
  }

  function EncodeCluster(c: Quad): (b: seq<byte>)
  {
    c
  }

  lemma {:induction false} ClustersParse(list: seq<Quad>, acc: seq<Quad>)
    ensures ParseClusters(Concat(EncodeCluster, list), acc) == acc + list
  {
    if list == [] {
      assert acc + list == acc;
    } else {
      var s := Concat(EncodeCluster, list);
      assert s[..4] == list[0] && s[4..] == Concat(EncodeCluster, list[1..]);
      ClustersParse(list[1..], acc + [list[0]]);
      assert acc + [list[0]] + list[1..] == acc + list;
    }
  }

  function EncodeReach(m: MpReach): (b: seq<byte>)
  {
    BeBytes(m.afi, 2) + ([m.safi] + EncodeHopAndRoutes(m.nextHop, m.nlri))
  }

  function EncodeHopAndRoutes(h: NextHop, nlri: seq<Prefix>): (b: seq<byte>)
  {
    PutVector(EncodeNextHop(h), 1) + ([0] + Concat(EncodePrefix, nlri))
  }

  function ParseReach(s: seq<byte>): (r: Result<MpReach, Error>)
  {
    var afi := TakeU16(s);
    if afi.Err? then Failure(afi.error) else
    var safi := TakeByte(afi.rest);
    if safi.Err? then Failure(safi.error) else
    ParseHopAndRoutes(afi.value, safi.value, safi.rest)
  }

  function ParseHopAndRoutes(afi: u16, safi: byte, s: seq<byte>): (r: Result<MpReach, Error>)
  {
    var hop := TakeVector(s, 1);
    if hop.Err? then Failure(hop.error) else
    var reserved := TakeByte(hop.rest);
    if reserved.Err? then Failure(reserved.error) else
    var nlri := Many(PrefixParser(afi == 2), reserved.rest, []);
    if nlri.Err? then Failure(nlri.error) else Success(MpReach(afi, safi, ParseNextHop(hop.value), nlri.value))
  }

  predicate ReachOk(m: MpReach)
  {
    NextHopOk(m.nextHop) && PrefixesOk(m.nlri, m.afi == 2)
  }

  lemma ReachParses(m: MpReach)
    requires ReachOk(m)
    ensures ParseReach(EncodeReach(m)) == Success(m)
  {
    var tail := EncodeHopAndRoutes(m.nextHop, m.nlri);
    U16Parses(m.afi, [m.safi] + tail);
    ByteParses(m.safi, tail);
    var hop, nlri := EncodeNextHop(m.nextHop), Concat(EncodePrefix, m.nlri);
    NextHopParses(m.nextHop);
    Pow256Values();
    VectorParses(hop, 1, [0] + nlri);
    ByteParses(0, nlri);
    PrefixesParse(m.nlri, m.afi == 2);
  }

  function EncodeUnreach(m: MpUnreach): (b: seq<byte>)
  {
    BeBytes(m.afi, 2) + ([m.safi] + Concat(EncodePrefix, m.withdrawn))
  }

  function ParseUnreach(s: seq<byte>): (r: Result<MpUnreach, Error>)
  {
    var afi := TakeU16(s);
    if afi.Err? then Failure(afi.error) else
    var safi := TakeByte(afi.rest);
    if safi.Err? then Failure(safi.error) else
    var withdrawn := Many(PrefixParser(afi.value == 2), safi.rest, []);
    if withdrawn.Err? then Failure(withdrawn.error)
    else Success(MpUnreach(afi.value, safi.value, withdrawn.value))
  }

  lemma UnreachParses(m: MpUnreach)
    requires PrefixesOk(m.withdrawn, m.afi == 2)
    ensures ParseUnreach(EncodeUnreach(m)) == Success(m)
  {
    var list := Concat(EncodePrefix, m.withdrawn);
    U16Parses(m.afi, [m.safi] + list);
    ByteParses(m.safi, list);
    PrefixesParse(m.withdrawn, m.afi == 2);
  }

  // ----- Path attributes -----

  function TypeCode(a: PathAttribute): (c: byte)
  {
    match a
    case OriginAttr(_) => 1
    case AsPathAttr(_) => 2
    case NextHopAttr(_) => 3
    case MultiExitDisc(_) => 4
    case LocalPref(_) => 5
    case AtomicAggregate => 6
    case AggregatorAttr(_) => 7
    case Community(_) => 8
    case OriginatorId(_) => 9
    case ClusterList(_) => 10
    case MpReachAttr(_) => 14
    case MpUnreachAttr(_) => 15
    case Unknown(c, _, _) => c
  }

  /** The OPTIONAL (0x80) and TRANSITIVE (0x40) flags. */
  function Flags(a: PathAttribute): (f: byte)
  {
    match a
    case OriginAttr(_) | AsPathAttr(_) | NextHopAttr(_) | LocalPref(_) | AtomicAggregate => 0x40
    case AggregatorAttr(_) | Community(_) => 0xc0
    case Unknown(_, transitive, _) => if transitive then 0xc0 else 0x80
    case _ => 0x80
  }

  function EncodeValue(a: PathAttribute, as4: bool): (b: seq<byte>)
  {
    match a
    case OriginAttr(o) => [o.Code()]
    case AsPathAttr(p) => Concat(SegmentEncoder(as4), p)
    case NextHopAttr(h) => h
    case MultiExitDisc(v) => BeBytes(v, 4)
    case LocalPref(v) => BeBytes(v, 4)
    case AtomicAggregate => []
    case AggregatorAttr(g) => EncodeAsn(g.asn, as4) + g.addr
    case Community(v) => BeBytes(v, 4)
    case OriginatorId(id) => id
    case ClusterList(list) => Concat(EncodeCluster, list)
    case MpReachAttr(m) => EncodeReach(m)
    case MpUnreachAttr(m) => EncodeUnreach(m)
    case Unknown(_, _, raw) => raw
  }

  /** An attribute before its value is interpreted. */
  datatype Raw = Raw(flags: byte, code: byte, value: seq<byte>)

  /** More than 255 bytes of value set the extended-length flag (0x10). */
  function EncodeRaw(flags: byte, code: byte, v: seq<byte>): (b: seq<byte>)
    requires flags < 0xf0
    ensures b != []
  {
    if |v| > 255 then [flags + 0x10] + ([code] + PutVector(v, 2)) else [flags] + ([code] + PutVector(v, 1))
  }

  function EncodeAttribute(a: PathAttribute, as4: bool): (b: seq<byte>)
  {
    EncodeRaw(Flags(a), TypeCode(a), EncodeValue(a, as4))
  }

  function ParseOrigin(v: seq<byte>): (r: Result<PathAttribute, Error>)
  {
    var o := TakeByte(v);
    if o.Err? then Failure(o.error)
    else if o.value == 0 then Success(OriginAttr(Igp))
    else if o.value == 1 then Success(OriginAttr(Egp))
    else if o.value == 2 then Success(OriginAttr(Incomplete))
    else Failure(Truncated)
  }

  function ParseAggregator(v: seq<byte>, as4: bool): (r: Result<Aggregator, Error>)
  {
    var asn := ParseAsn(v, as4);
    if asn.Err? then Failure(asn.error) else
    var addr := TakeBytes(asn.rest, 4);
    if addr.Err? then Failure(addr.error) else Success(Aggregator(asn.value, addr.value))
  }

  function ParsePathValue(v: seq<byte>, as4: bool): (r: Result<PathAttribute, Error>)
  {
    var p := Many(SegmentParser(as4), v, []);
    if p.Err? then Failure(p.error) else Success(AsPathAttr(p.value))
  }

  /** The attributes whose values have parts of their own. */
  function ParseStructured(code: byte, v: seq<byte>, as4: bool): (r: Result<PathAttribute, Error>)
  {
    if code == 2 then ParsePathValue(v, as4)
    else if code == 7 then
      var g := ParseAggregator(v, as4);
      if g.Failure? then Failure(g.error) else Success(AggregatorAttr(g.value))
    else if code == 10 then Success(ClusterList(ParseClusters(v, [])))
    else if code == 14 then
      var m := ParseReach(v);
      if m.Failure? then Failure(m.error) else Success(MpReachAttr(m.value))
    else
      var m := ParseUnreach(v);
      if m.Failure? then Failure(m.error) else Success(MpUnreachAttr(m.value))
  }

  function ParseAddress(code: byte, v: seq<byte>): (r: Result<PathAttribute, Error>)
  {
    var a := TakeBytes(v, 4);
    if a.Err? then Failure(a.error) else Success(if code == 3 then NextHopAttr(a.value) else OriginatorId(a.value))
  }

  function ParseWord(code: byte, v: seq<byte>): (r: Result<PathAttribute, Error>)
  {
    var n := TakeU32(v);
    if n.Err? then Failure(n.error)
    else Success(if code == 4 then MultiExitDisc(n.value) else if code == 5 then LocalPref(n.value) else Community(n.value))
  }

  /** The value of an attribute; bytes the interpretation does not need are ignored. */
  function ParseValue(code: byte, transitive: bool, v: seq<byte>, as4: bool): (r: Result<PathAttribute, Error>)
  {
    if code in {2, 7, 10, 14, 15} then ParseStructured(code, v, as4)
    else if code == 1 then ParseOrigin(v)
    else if code == 3 || code == 9 then ParseAddress(code, v)
    else if code == 4 || code == 5 || code == 8 then ParseWord(code, v)
    else if code == 6 then Success(AtomicAggregate)
    else Success(Unknown(code, transitive, v))
  }

  function ParseRaw(s: seq<byte>): (r: Parsed<Raw>)
    ensures r.Ok? ==> |r.rest| < |s|
  {
    var flags := TakeByte(s);
    if flags.Err? then Err(flags.error) else
    var code := TakeByte(flags.rest);
    if code.Err? then Err(code.error) else
    var v := TakeVector(code.rest, if flags.value / 16 % 2 == 1 then 2 else 1);
    if v.Err? then Err(v.error) else Ok(Raw(flags.value, code.value, v.value), v.rest)
  }

  function ParseAttribute(s: seq<byte>, as4: bool): (r: Parsed<PathAttribute>)
    ensures r.Ok? ==> |r.rest| < |s|
  {
    var raw := ParseRaw(s);
    if raw.Err? then Err(raw.error) else
    var a := ParseValue(raw.value.code, raw.value.flags / 64 % 2 == 1, raw.value.value, as4);
    if a.Failure? then Err(a.error) else Ok(a.value, raw.rest)
  }

  predicate KnownCode(code: byte)
  {
    1 <= code <= 10 || code == 14 || code == 15
  }

  /** What a value must satisfy to be carried without loss. */
  predicate AttributeOk(a: PathAttribute, as4: bool)
  {
    && |EncodeValue(a, as4)| < 0x1_0000
    && match a
       case AsPathAttr(p) => PathOk(p, as4)
       case AggregatorAttr(g) => AsnOk(g.asn, as4)
       case MpReachAttr(m) => ReachOk(m)
       case MpUnreachAttr(m) => PrefixesOk(m.withdrawn, m.afi == 2)
       case Unknown(code, _, _) => !KnownCode(code)
       case _ => true
  }

  predicate ParsesBack(a: PathAttribute, as4: bool)
  {
    ParseValue(TypeCode(a), Flags(a) / 64 % 2 == 1, EncodeValue(a, as4), as4) == Success(a)
  }

  lemma WordValue(v: u32, as4: bool)
    ensures ParsesBack(MultiExitDisc(v), as4) && ParsesBack(LocalPref(v), as4) && ParsesBack(Community(v), as4)
  {
    U32Parses(v, []);
    assert BeBytes(v, 4) + [] == BeBytes(v, 4);
  }

  lemma AddressValue(q: Quad, as4: bool)
    ensures ParsesBack(NextHopAttr(q), as4) && ParsesBack(OriginatorId(q), as4)
  {
    assert q[..4] == q;
  }

  lemma AggregatorParses(g: Aggregator, as4: bool)
    requires AsnOk(g.asn, as4)
    ensures ParseAggregator(EncodeAsn(g.asn, as4) + g.addr, as4) == Success(g)
  {
    AsnParses(g.asn, as4, g.addr);
    assert g.addr[..4] == g.addr;
  }

  lemma StructuredValue(a: PathAttribute, as4: bool)
    requires AttributeOk(a, as4) && TypeCode(a) in {2, 7, 10, 14, 15}
    ensures ParseStructured(TypeCode(a), EncodeValue(a, as4), as4) == Success(a)
  {
    var v := EncodeValue(a, as4);
    match a
    case AsPathAttr(p) => assert ParsePathValue(v, as4) == Success(a) by { PathParses(p, as4); }
    case AggregatorAttr(g) => assert ParseAggregator(v, as4) == Success(g) by { AggregatorParses(g, as4); }
    case ClusterList(list) =>
      assert ParseClusters(v, []) == list by {
        ClustersParse(list, []);
        assert [] + list == list;
      }
    case MpReachAttr(m) => assert ParseReach(v) == Success(m) by { ReachParses(m); }
    case MpUnreachAttr(m) => assert ParseUnreach(v) == Success(m) by { UnreachParses(m); }
  }

  lemma ValueParses(a: PathAttribute, as4: bool)
    requires AttributeOk(a, as4)
    ensures ParsesBack(a, as4)
  {
    match a
    case MultiExitDisc(v) => WordValue(v, as4);
    case LocalPref(v) => WordValue(v, as4);
    case Community(v) => WordValue(v, as4);
    case NextHopAttr(q) => AddressValue(q, as4);
    case OriginatorId(q) => AddressValue(q, as4);
    case OriginAttr(_) =>
    case AtomicAggregate =>
    case Unknown(_, _, _) =>
    case _ => StructuredValue(a, as4);
  }

  lemma RawParses(flags: byte, code: byte, v: seq<byte>, rest: seq<byte>)
    requires flags < 0xf0 && flags / 16 % 2 == 0 && |v| < 0x1_0000
    ensures var r := ParseRaw(EncodeRaw(flags, code, v) + rest);
            r.Ok? && r.rest == rest && r.value.code == code && r.value.value == v
            && r.value.flags / 64 == flags / 64
  {
    Pow256Values();
    ExtendedFlag(flags);
    if |v| > 255 { RawFields(flags + 0x10, code, v, 2, rest); } else { RawFields(flags, code, v, 1, rest); }
  }

  lemma ExtendedFlag(flags: byte)
    requires flags < 0xf0 && flags / 16 % 2 == 0
    ensures (flags + 0x10) / 16 % 2 == 1 && (flags + 0x10) / 64 == flags / 64
  {}

  lemma RawFields(flags: byte, code: byte, v: seq<byte>, width: nat, rest: seq<byte>)
    requires width == (if flags / 16 % 2 == 1 then 2 else 1) && |v| < Pow256(width)
    ensures ParseRaw([flags] + ([code] + PutVector(v, width)) + rest) == Ok(Raw(flags, code, v), rest)
  {
    Joined([flags], [code] + PutVector(v, width), rest);
    Joined([code], PutVector(v, width), rest);
    ByteParses(flags, [code] + (PutVector(v, width) + rest));
    ByteParses(code, PutVector(v, width) + rest);
    VectorParses(v, width, rest);
  }

  lemma AttributeParses(a: PathAttribute, as4: bool, rest: seq<byte>)
    requires AttributeOk(a, as4)
    ensures ParseAttribute(EncodeAttribute(a, as4) + rest, as4) == Ok(a, rest)
  {
    RawParses(Flags(a), TypeCode(a), EncodeValue(a, as4), rest);
    ValueParses(a, as4);
  }

  // ----- UPDATE -----

  function AttributeEncoder(as4: bool): (e: PathAttribute -> seq<byte>)
  {
    a => EncodeAttribute(a, as4)
  }

  function AttributeParser(as4: bool): (p: Parser<PathAttribute>)
  {
    s => ParseAttribute(s, as4)
  }

  function EncodeUpdate(u: Update, as4: bool): (b: seq<byte>)
  {
    PutVector(Concat(EncodePrefix, u.withdrawn), 2)
    + (PutVector(Concat(AttributeEncoder(as4), u.attributes), 2) + Concat(EncodePrefix, u.nlri))
  }

  function ParseUpdate(s: seq<byte>, as4: bool): (r: Result<Update, Error>)
  {
    var w := TakeVector(s, 2);
    if w.Err? then Failure(w.error) else
    var withdrawn := Many(PrefixParser(false), w.value, []);
    if withdrawn.Err? then Failure(withdrawn.error) else
    ParseAnnounced(withdrawn.value, w.rest, as4)
  }

  /** What follows the withdrawn routes. */
  function ParseAnnounced(withdrawn: seq<Prefix>, s: seq<byte>, as4: bool): (r: Result<Update, Error>)
  {
    var a := TakeVector(s, 2);
    if a.Err? then Failure(a.error) else
    var attributes := Many(AttributeParser(as4), a.value, []);
    if attributes.Err? then Failure(attributes.error) else
    var nlri := Many(PrefixParser(false), a.rest, []);
    if nlri.Err? then Failure(nlri.error)
    else Success(Update(withdrawn, attributes.value, nlri.value))
  }

  predicate AttributesOk(list: seq<PathAttribute>, as4: bool)
  {
    forall i :: 0 <= i < |list| ==> AttributeOk(list[i], as4)
  }

  predicate UpdateOk(u: Update, as4: bool)
  {
    && PrefixesOk(u.withdrawn, false) && PrefixesOk(u.nlri, false) && AttributesOk(u.attributes, as4)
    && |Concat(EncodePrefix, u.withdrawn)| < 0x1_0000
    && |Concat(AttributeEncoder(as4), u.attributes)| < 0x1_0000
  }

  lemma AttributeReads(a: PathAttribute, as4: bool)
    requires AttributeOk(a, as4)
    ensures Reads(AttributeParser(as4), AttributeEncoder(as4), a)
  {
    forall rest ensures AttributeParser(as4)(AttributeEncoder(as4)(a) + rest) == Ok(a, rest) {
      AttributeParses(a, as4, rest);
    }
  }

  lemma AttributesParse(list: seq<PathAttribute>, as4: bool)
    requires AttributesOk(list, as4)
    ensures Many(AttributeParser(as4), Concat(AttributeEncoder(as4), list), []) == Ok(list, [])
  {
    forall i | 0 <= i < |list| ensures Reads(AttributeParser(as4), AttributeEncoder(as4), list[i]) {
      AttributeReads(list[i], as4);
    }
    ManyReadsAll(AttributeParser(as4), AttributeEncoder(as4), list);
  }

  /** Decoding an encoded UPDATE returns it, in both AS widths. */
  lemma UpdateRoundTrip(u: Update, as4: bool)
    requires UpdateOk(u, as4)
    ensures ParseUpdate(EncodeUpdate(u, as4), as4) == Success(u)
  {
    var w, a, n := Concat(EncodePrefix, u.withdrawn), Concat(AttributeEncoder(as4), u.attributes), Concat(EncodePrefix, u.nlri);
    Pow256Values();
    VectorParses(w, 2, PutVector(a, 2) + n);
    VectorParses(a, 2, n);
    PrefixesParse(u.withdrawn, false);
    AttributesParse(u.attributes, as4);
    PrefixesParse(u.nlri, false);
  }
}
