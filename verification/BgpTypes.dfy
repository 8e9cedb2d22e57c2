/** The values carried in BGP messages (tpt-bgp/src/attributes.rs and tpt-bgp/src/wire.rs). */
module BgpTypes {
  import opened BigEndian
  import opened Wrappers

  /** Four address bytes: an IPv4 address, a peer or a router identifier. */
  type Quad = b: seq<byte> | |b| == 4 witness [0, 0, 0, 0]

  /** Sixteen address bytes. */
  type Hexadecet = b: seq<byte> | |b| == 16 witness [0, 0, 0, 0, 0, 0, 0, 0, 0, 0, 0, 0, 0, 0, 0, 0]

  type Bits4 = x: int | 0 <= x <= 32
  type Bits6 = x: int | 0 <= x <= 128

  datatype Prefix = V4(addr4: Quad, bits4: Bits4) | V6(addr6: Hexadecet, bits6: Bits6) {
    function Bits(): (n: byte)
    {
      if V4? then bits4 else bits6
    }

    function Octets(): (b: seq<byte>)
      ensures |b| == if V4? then 4 else 16
    {
      if V4? then addr4 else addr6
    }
  }

  datatype Origin = Igp | Egp | Incomplete {
    function Code(): (c: byte)
    {
      match this case Igp => 0 case Egp => 1 case Incomplete => 2
    }
  }

  datatype SegmentType = SetSegment | SequenceSegment {
    function Code(): (c: byte)
    {
      if SetSegment? then 1 else 2
    }
  }

  datatype Segment = Segment(kind: SegmentType, asns: seq<u32>)

  type AsPath = seq<Segment>

  function FirstAsn(path: AsPath): (r: Option<u32>)
  {
    if path == [] || path[0].asns == [] then None else Some(path[0].asns[0])
  }

  datatype Aggregator = Aggregator(asn: u32, addr: Quad)

  datatype NextHop =
    | Ipv4(a4: Quad)
    | Ipv6(a6: Hexadecet)
    | Ipv6LinkLocal(global: Hexadecet, local: Hexadecet)
    | Other(raw: seq<byte>)

  datatype MpReach = MpReach(afi: u16, safi: byte, nextHop: NextHop, nlri: seq<Prefix>)

  datatype MpUnreach = MpUnreach(afi: u16, safi: byte, withdrawn: seq<Prefix>)

  datatype PathAttribute =
    | OriginAttr(origin: Origin)
    | AsPathAttr(path: AsPath)
    | NextHopAttr(nextHop: Quad)
    | MultiExitDisc(med: u32)
    | LocalPref(pref: u32)
    | AtomicAggregate
    | AggregatorAttr(aggregator: Aggregator)
    | Community(community: u32)
    | OriginatorId(id: Quad)
    | ClusterList(clusters: seq<Quad>)
    | MpReachAttr(reach: MpReach)
    | MpUnreachAttr(unreach: MpUnreach)
    | Unknown(code: byte, transitive: bool, raw: seq<byte>)

  datatype Update = Update(withdrawn: seq<Prefix>, attributes: seq<PathAttribute>, nlri: seq<Prefix>)
}
