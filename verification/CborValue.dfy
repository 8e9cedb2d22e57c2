/** CBOR data items and their encoding (tpt-cbor/src/value.rs); floating-point items are not modelled. */
module CborValue {
  import opened BigEndian

  datatype Value =
    | Integer(i: int)
    | Bool(b: bool)
    | Null
    | Undefined
    | Simple(s: byte)
    | Bytes(bytes: seq<byte>)
    | Text(utf8: seq<byte>)
    | Array(items: seq<Value>)
    | Map(pairs: seq<Pair>)
    | Tag(tag: nat, inner: Value)

  /** One entry of a map. */
  datatype Pair = Pair(key: Value, val: Value)

  const I128_BOUND: int := 0x8000_0000_0000_0000_0000_0000_0000_0000
  const U64_BOUND: int := 0x1_0000_0000_0000_0000

  // ----- UTF-8 (what `String::from_utf8` accepts) -----

  predicate Continuation(x: byte) { 0x80 <= x <= 0xBF }

  predicate ValidUtf8(b: seq<byte>)
  {
    if b == [] then true
    else if b[0] < 0x80 then ValidUtf8(b[1..])
    else if 0xC2 <= b[0] <= 0xDF then |b| >= 2 && Continuation(b[1]) && ValidUtf8(b[2..])
    else if 0xE0 <= b[0] <= 0xEF then
      && |b| >= 3 && Continuation(b[1]) && Continuation(b[2])
      && (b[0] == 0xE0 ==> b[1] >= 0xA0) && (b[0] == 0xED ==> b[1] <= 0x9F)
      && ValidUtf8(b[3..])
    else if 0xF0 <= b[0] <= 0xF4 then
      && |b| >= 4 && Continuation(b[1]) && Continuation(b[2]) && Continuation(b[3])
      && (b[0] == 0xF0 ==> b[1] >= 0x90) && (b[0] == 0xF4 ==> b[1] <= 0x8F)
      && ValidUtf8(b[4..])
    else false
  }

  // ----- heads and integers -----

  /** The initial byte and length field: the shortest form that holds `n`. */
  function Head(major: nat, n: nat): (h: seq<byte>)
    requires major < 8
  {
    if n < 24 then [32 * major + n]
    else if n < 0x100 then [32 * major + 24, n]
    else if n < 0x1_0000 then [32 * major + 25] + BeBytes(n, 2)
    else if n < 0x1_0000_0000 then [32 * major + 26] + BeBytes(n, 4)
    else [32 * major + 27] + BeBytes(n, 8)
  }

  /** Drops leading zero bytes but keeps at least one byte. */
  function TrimBe(b: seq<byte>): (r: seq<byte>)
    ensures |r| <= |b|
  {
    if |b| > 1 && b[0] == 0 then TrimBe(b[1..]) else b
  }

  function Bignum(tag: nat, n: nat): (r: seq<byte>)
  {
    var b := TrimBe(BeBytes(n, 16));
    Head(6, tag) + Head(2, |b|) + b
  }

  function EncodeInteger(i: int): (r: seq<byte>)
  {
    if i >= 0 then
      if i < U64_BOUND then Head(0, i) else Bignum(2, i)
    else
      if -i - 1 < U64_BOUND then Head(1, -i - 1) else Bignum(3, -i - 1)
  }

  function EncodeSimple(s: byte): (r: seq<byte>)
  {
    if s <= 23 then [0xe0 + s] else [0xf8, s]
  }

  // ----- items, in the order given -----

  /** Encoding with default options: maps keep their order. */
  function Encode(v: Value): (r: seq<byte>)
    decreases v
  {
    match v
    case Integer(i) => EncodeInteger(i)
    case Bool(b) => [if b then 0xf5 else 0xf4]
    case Null => [0xf6]
    case Undefined => [0xf7]
    case Simple(s) => EncodeSimple(s)
    case Bytes(b) => Head(2, |b|) + b
    case Text(t) => Head(3, |t|) + t
    case Array(items) => Head(4, |items|) + EncodeItems(items)
    case Map(pairs) => Head(5, |pairs|) + EncodePairs(pairs)
    case Tag(tag, inner) => Head(6, tag) + Encode(inner)
  }

  function EncodeItems(items: seq<Value>): (r: seq<byte>)
    decreases items
  {
    if items == [] then [] else Encode(items[0]) + EncodeItems(items[1..])
  }

  function EncodePairs(pairs: seq<Pair>): (r: seq<byte>)
    decreases pairs
  {
    if pairs == [] then [] else EncodePair(pairs[0]) + EncodePairs(pairs[1..])
  }

  function EncodePair(p: Pair): (r: seq<byte>)
    decreases p
  {
    Encode(p.key) + Encode(p.val)
  }

  // ----- canonical key order -----

  /** Bytewise lexicographic order. */
  predicate LexLeq(a: seq<byte>, b: seq<byte>)
  {
    a == [] || (b != [] && (a[0] < b[0] || (a[0] == b[0] && LexLeq(a[1..], b[1..]))))
  }

  /** Shorter encodings first, then bytewise. */
  predicate KeyLeq(a: seq<byte>, b: seq<byte>)
  {
    |a| < |b| || (|a| == |b| && LexLeq(a, b))
  }

  predicate KeyLess(a: Value, b: Value)
  {
    var ea, eb := Encode(a), Encode(b);
    KeyLeq(ea, eb) && ea != eb
  }

  /** Inserts a pair before the first pair whose key is not smaller, so that sorting is stable. */
  function InsertPair(p: Pair, ps: seq<Pair>): (r: seq<Pair>)
    ensures multiset(r) == multiset{p} + multiset(ps)
  {
    if ps == [] then [p]
    else if KeyLeq(Encode(p.key), Encode(ps[0].key)) then [p] + ps
    else
      assert ps == [ps[0]] + ps[1..];
      [ps[0]] + InsertPair(p, ps[1..])
  }

  /** `pairs.sort_by(canonical_key_cmp)` */
  function SortPairs(ps: seq<Pair>): (r: seq<Pair>)
    ensures multiset(r) == multiset(ps) && |r| == |ps|
    ensures forall p :: p in r ==> p in ps
  {
    if ps == [] then []
    else
      assert ps == [ps[0]] + ps[1..];
      var r := InsertPair(ps[0], SortPairs(ps[1..]));
      assert |r| == |multiset(r)| == |multiset(ps)| == |ps|;
      assert forall p :: p in r ==> p in multiset(r);
      r
  }

  /** The value that canonical encoding writes: every map sorted by the encoding of its keys. */
  function Canon(v: Value): (r: Value)
    decreases v
  {
    match v
    case Array(items) => Array(CanonItems(items))
    case Map(pairs) =>
      var sorted := SortPairs(pairs);
      Map(seq(|sorted|, i requires 0 <= i < |sorted| =>
        assert sorted[i] in pairs; Pair(Canon(sorted[i].key), Canon(sorted[i].val))))
    case Tag(tag, inner) => Tag(tag, Canon(inner))
    case _ => v
  }

  function CanonItems(items: seq<Value>): (r: seq<Value>)
    ensures |r| == |items|
    decreases items
  {
    if items == [] then [] else [Canon(items[0])] + CanonItems(items[1..])
  }
}
