/**
 What the BGP decoder returns: values that can be carried without loss, in no more bytes than were read. So a path
 attribute or an UPDATE comes back from its encoding exactly if it is such a value.
 */
module BgpImage {
  import opened BigEndian
  import opened BgpTypes
  import opened BgpCodec
  import opened Wire
  import opened Wrappers

  /** What the parser returns satisfies `ok` and encodes to no more bytes than were read. */
  ghost predicate Yields<T(!new)>(p: Parser<T>, e: T -> seq<byte>, ok: T -> bool)
  {
    forall s :: p(s).Ok? ==> ok(p(s).value) && |e(p(s).value)| + |p(s).rest| <= |s|
  }

  predicate AllOk<T>(xs: seq<T>, ok: T -> bool)
  {
    forall i :: 0 <= i < |xs| ==> ok(xs[i])
  }

  lemma OneMore<T>(e: T -> seq<byte>, ok: T -> bool, acc: seq<T>, x: T)
    requires AllOk(acc, ok) && ok(x)
    ensures AllOk(acc + [x], ok) && |Concat(e, acc + [x])| == |Concat(e, acc)| + |e(x)|
  {
    ConcatSnoc(e, acc + [x], |acc|);
    assert (acc + [x])[..|acc|] == acc && (acc + [x])[..|acc| + 1] == acc + [x];
  }

  lemma {:induction false} ManyYields<T(!new)>(p: Parser<T>, e: T -> seq<byte>, ok: T -> bool, s: seq<byte>, acc: seq<T>)
    requires Yields(p, e, ok) && AllOk(acc, ok) && Many(p, s, acc).Ok?
    ensures AllOk(Many(p, s, acc).value, ok) && |Concat(e, Many(p, s, acc).value)| <= |Concat(e, acc)| + |s|
    decreases |s|
  {
    if s != [] {
      var x := p(s);
      OneMore(e, ok, acc, x.value);
      ManyYields(p, e, ok, x.rest, acc + [x.value]);
    }
  }

  lemma {:induction false} TimesYields<T(!new)>(p: Parser<T>, e: T -> seq<byte>, ok: T -> bool, n: nat, s: seq<byte>, acc: seq<T>)
    requires Yields(p, e, ok) && AllOk(acc, ok) && Times(p, n, s, acc).Ok?
    ensures var r := Times(p, n, s, acc);
            |r.value| == |acc| + n && AllOk(r.value, ok) && |Concat(e, r.value)| + |r.rest| <= |Concat(e, acc)| + |s|
    decreases n
  {
    if n > 0 {
      var x := p(s);
      OneMore(e, ok, acc, x.value);
      TimesYields(p, e, ok, n - 1, x.rest, acc + [x.value]);
    }
  }

  // ----- Prefixes and paths -----

  function PrefixTest(v6: bool): (ok: Prefix -> bool)
  {
    p => PrefixOk(p) && p.V6? == v6
  }

  lemma PrefixYields(v6: bool)
    ensures Yields(PrefixParser(v6), EncodePrefix, PrefixTest(v6))
  {
    forall s | ParsePrefix(s, v6).Ok? ensures PrefixOk(ParsePrefix(s, v6).value) && ParsePrefix(s, v6).value.V6? == v6
      && |EncodePrefix(ParsePrefix(s, v6).value)| + |ParsePrefix(s, v6).rest| <= |s| {}
  }

  lemma PrefixesYield(v6: bool, s: seq<byte>)
    requires Many(PrefixParser(v6), s, []).Ok?
    ensures var ps := Many(PrefixParser(v6), s, []).value; PrefixesOk(ps, v6) && |Concat(EncodePrefix, ps)| <= |s|
  {
    PrefixYields(v6);
    ManyYields(PrefixParser(v6), EncodePrefix, PrefixTest(v6), s, []);
    var ps := Many(PrefixParser(v6), s, []).value;
    forall i | 0 <= i < |ps| ensures PrefixOk(ps[i]) && ps[i].V6? == v6 { assert PrefixTest(v6)(ps[i]); }
  }

  function AsnTest(as4: bool): (ok: u32 -> bool)
  {
    (asn: u32) => AsnOk(asn, as4)
  }

  lemma AsnYields(as4: bool)
    ensures Yields(AsnParser(as4), AsnEncoder(as4), AsnTest(as4))
  {}

  function SegmentTest(as4: bool): (ok: Segment -> bool)
  {
    g => SegmentOk(g, as4)
  }

  lemma SegmentYield(s: seq<byte>, as4: bool)
    requires ParseSegment(s, as4).Ok?
    ensures var r := ParseSegment(s, as4); SegmentOk(r.value, as4) && |EncodeSegment(r.value, as4)| + |r.rest| <= |s|
  {
    var count := TakeByte(TakeByte(s).rest);
    AsnYields(as4);
    TimesYields(AsnParser(as4), AsnEncoder(as4), AsnTest(as4), count.value, count.rest, []);
    var asns := Times(AsnParser(as4), count.value, count.rest, []).value;
    forall i | 0 <= i < |asns| ensures AsnOk(asns[i], as4) { assert AsnTest(as4)(asns[i]); }
  }

  lemma PathYields(s: seq<byte>, as4: bool)
    requires Many(SegmentParser(as4), s, []).Ok?
    ensures var p := Many(SegmentParser(as4), s, []).value; PathOk(p, as4) && |Concat(SegmentEncoder(as4), p)| <= |s|
  {
    forall t | SegmentParser(as4)(t).Ok?
      ensures SegmentTest(as4)(SegmentParser(as4)(t).value)
        && |SegmentEncoder(as4)(SegmentParser(as4)(t).value)| + |SegmentParser(as4)(t).rest| <= |t|
    {
      SegmentYield(t, as4);
    }
    ManyYields(SegmentParser(as4), SegmentEncoder(as4), SegmentTest(as4), s, []);
    var p := Many(SegmentParser(as4), s, []).value;
    forall i | 0 <= i < |p| ensures SegmentOk(p[i], as4) { assert SegmentTest(as4)(p[i]); }
  }

  // ----- Attributes -----

  lemma {:induction false} ClustersYield(s: seq<byte>, acc: seq<Quad>)
    ensures |Concat(EncodeCluster, ParseClusters(s, acc))| <= |Concat(EncodeCluster, acc)| + |s|
    decreases |s|
  {
    if |s| >= 4 {
      var c: Quad := s[..4];
      OneMore<Quad>(EncodeCluster, (q: Quad) => true, acc, c);
      ClustersYield(s[4..], acc + [c]);
    }
  }

  lemma HopYields(b: seq<byte>)
    requires |b| <= 255
    ensures NextHopOk(ParseNextHop(b)) && |EncodeNextHop(ParseNextHop(b))| == |b|
  {}

  lemma ReachYields(s: seq<byte>)
    requires ParseReach(s).Success?
    ensures ReachOk(ParseReach(s).value) && |EncodeReach(ParseReach(s).value)| <= |s|
  {
    var afi := TakeU16(s);
    var hop := TakeVector(TakeByte(afi.rest).rest, 1);
    VectorBound(TakeByte(afi.rest).rest, 1);
    HopYields(hop.value);
    PrefixesYield(afi.value == 2, TakeByte(hop.rest).rest);
  }

  lemma VectorBound(s: seq<byte>, width: nat)
    requires TakeVector(s, width).Ok?
    ensures |TakeVector(s, width).value| < Pow256(width) && (width == 1 ==> |TakeVector(s, width).value| <= 255)
    ensures width == 2 ==> |TakeVector(s, width).value| < 0x1_0000
  {
    BeBytesVal(s[..width]);
    Pow256Values();
  }

  lemma UnreachYields(s: seq<byte>)
    requires ParseUnreach(s).Success?
    ensures var m := ParseUnreach(s).value; PrefixesOk(m.withdrawn, m.afi == 2) && |EncodeUnreach(m)| <= |s|
  {
    var afi := TakeU16(s);
    PrefixesYield(afi.value == 2, TakeByte(afi.rest).rest);
  }

  lemma AggregatorYields(v: seq<byte>, as4: bool)
    requires ParseAggregator(v, as4).Success?
    ensures var g := ParseAggregator(v, as4).value; AsnOk(g.asn, as4) && |EncodeAsn(g.asn, as4) + g.addr| <= |v|
  {}

  lemma StructuredYields(code: byte, v: seq<byte>, as4: bool)
    requires code in {2, 7, 10, 14, 15} && |v| < 0x1_0000 && ParseStructured(code, v, as4).Success?
    ensures var a := ParseStructured(code, v, as4).value; AttributeOk(a, as4) && |EncodeValue(a, as4)| <= |v|
  {
    if code == 2 { PathYields(v, as4); }
    else if code == 7 { AggregatorYields(v, as4); }
    else if code == 10 { ClustersYield(v, []); }
    else if code == 14 { ReachYields(v); }
    else { UnreachYields(v); }
  }

  lemma ValueYields(code: byte, transitive: bool, v: seq<byte>, as4: bool)
    requires |v| < 0x1_0000 && ParseValue(code, transitive, v, as4).Success?
    ensures var a := ParseValue(code, transitive, v, as4).value; AttributeOk(a, as4) && |EncodeValue(a, as4)| <= |v|
  {
    if code in {2, 7, 10, 14, 15} { StructuredYields(code, v, as4); }
  }

  lemma RawYields(s: seq<byte>)
    requires ParseRaw(s).Ok?
    ensures var r := ParseRaw(s);
            |r.value.value| < 0x1_0000 && |r.rest| + |r.value.value| + (if |r.value.value| > 255 then 4 else 3) <= |s|
  {
    var flags := TakeByte(s);
    var code := TakeByte(flags.rest);
    VectorBound(code.rest, if flags.value / 16 % 2 == 1 then 2 else 1);
  }

  /** What is decoded as an attribute can be carried, in no more bytes. */
  lemma AttributeYields(s: seq<byte>, as4: bool)
    requires ParseAttribute(s, as4).Ok?
    ensures var r := ParseAttribute(s, as4); AttributeOk(r.value, as4) && |EncodeAttribute(r.value, as4)| + |r.rest| <= |s|
  {
    var raw := ParseRaw(s).value;
    RawYields(s);
    ValueYields(raw.code, raw.flags / 64 % 2 == 1, raw.value, as4);
  }

  /** An attribute comes back from its encoding, whatever follows, exactly if it can be carried. */
  lemma AttributeRoundTripIff(a: PathAttribute, as4: bool, rest: seq<byte>)
    ensures ParseAttribute(EncodeAttribute(a, as4) + rest, as4) == Ok(a, rest) <==> AttributeOk(a, as4)
  {
    if AttributeOk(a, as4) { AttributeParses(a, as4, rest); }
    var s := EncodeAttribute(a, as4) + rest;
    if ParseAttribute(s, as4) == Ok(a, rest) { AttributeYields(s, as4); }
  }

  function AttributeTest(as4: bool): (ok: PathAttribute -> bool)
  {
    a => AttributeOk(a, as4)
  }

  lemma AttributesYield(s: seq<byte>, as4: bool)
    requires Many(AttributeParser(as4), s, []).Ok?
    ensures var list := Many(AttributeParser(as4), s, []).value;
            AttributesOk(list, as4) && |Concat(AttributeEncoder(as4), list)| <= |s|
  {
    forall t | AttributeParser(as4)(t).Ok?
      ensures AttributeTest(as4)(AttributeParser(as4)(t).value)
        && |AttributeEncoder(as4)(AttributeParser(as4)(t).value)| + |AttributeParser(as4)(t).rest| <= |t|
    {
      AttributeYields(t, as4);
    }
    ManyYields(AttributeParser(as4), AttributeEncoder(as4), AttributeTest(as4), s, []);
    var list := Many(AttributeParser(as4), s, []).value;
    forall i | 0 <= i < |list| ensures AttributeOk(list[i], as4) { assert AttributeTest(as4)(list[i]); }
  }

  // ----- UPDATE -----

  /** What is decoded as an UPDATE can be carried. */
  lemma UpdateYields(s: seq<byte>, as4: bool)
    requires ParseUpdate(s, as4).Success?
    ensures UpdateOk(ParseUpdate(s, as4).value, as4)
  {
    var w := TakeVector(s, 2);
    VectorBound(s, 2);
    PrefixesYield(false, w.value);
    var a := TakeVector(w.rest, 2);
    VectorBound(w.rest, 2);
    AttributesYield(a.value, as4);
    PrefixesYield(false, a.rest);
  }

  /** An UPDATE comes back from its encoding exactly if it can be carried, in both AS widths. */
  lemma UpdateRoundTripIff(u: Update, as4: bool)
    ensures ParseUpdate(EncodeUpdate(u, as4), as4) == Success(u) <==> UpdateOk(u, as4)
  {
    if UpdateOk(u, as4) { UpdateRoundTrip(u, as4); }
    if ParseUpdate(EncodeUpdate(u, as4), as4) == Success(u) { UpdateYields(EncodeUpdate(u, as4), as4); }
  }

  /** Decoding, encoding and decoding again gives the same, so nothing is lost after the first decoding. */
  lemma DecodedStays(s: seq<byte>, as4: bool)
    requires ParseUpdate(s, as4).Success?
    ensures ParseUpdate(EncodeUpdate(ParseUpdate(s, as4).value, as4), as4) == ParseUpdate(s, as4)
  {
    UpdateYields(s, as4);
    UpdateRoundTrip(ParseUpdate(s, as4).value, as4);
  }
}
