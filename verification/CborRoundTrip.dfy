/** Decoding inverts encoding, whatever follows; hence the encoding is injective and prefix-free. */
module CborRoundTrip {
  import opened BigEndian
  import opened CborValue
  import opened CborDecode
  import opened Sequences

  /** No two entries have the same key. */
  ghost predicate DistinctKeys(ps: seq<Pair>)
  {
    forall i, j :: 0 <= i < j < |ps| ==> ps[i].key != ps[j].key
  }

  /** The keys strictly increase in the canonical key order. */
  ghost predicate SortedKeys(ps: seq<Pair>)
  {
    forall i, j :: 0 <= i < j < |ps| ==> KeyLess(ps[i].key, ps[j].key)
  }

  /** The values the crate can represent and the options `o` do not forbid. */
  ghost predicate WellFormed(v: Value, o: Options)
  {
    match v
    case Integer(i) => -I128_BOUND <= i < I128_BOUND
    case Simple(s) => s <= 19 || s >= 32
    case Bytes(b) => |b| < U64_BOUND
    case Text(t) => |t| < U64_BOUND && ValidUtf8(t)
    case Array(items) => |items| < U64_BOUND && forall i :: 0 <= i < |items| ==> WellFormed(items[i], o)
    case Map(ps) =>
      && |ps| < U64_BOUND
      && (forall i :: 0 <= i < |ps| ==> WellFormedPair(ps[i], o))
      && KeysInOrder(ps, o)
    case Tag(tag, inner) =>
      && tag < U64_BOUND && WellFormed(inner, o)
      // a bignum tag over a short byte string is read as an integer
      && !((tag == 2 || tag == 3) && inner.Bytes? && |inner.bytes| <= 16)
    case _ => true
  }

  ghost predicate WellFormedPair(p: Pair, o: Options)
  {
    WellFormed(p.key, o) && WellFormed(p.val, o)
  }

  lemma ReadBytes(b: seq<byte>, rest: seq<byte>)
    ensures ReadExact(b + rest, |b|) == Ok(b, rest)
  {}

  lemma ReadNumberOf(n: nat, width: nat, rest: seq<byte>)
    requires n < Pow256(width)
    ensures ReadNumber(BeBytes(n, width) + rest, width) == Ok(Definite(n, width), rest)
  {
    ReadBytes(BeBytes(n, width), rest);
    BeValBytes(n, width);
  }

  /** A head is read back as its major type and number, in the width the number needs. */
  lemma HeadParses(major: nat, n: nat, rest: seq<byte>, m: nat)
    requires major < 8 && m < 8 && n < U64_BOUND
    ensures var s := Head(major, n) + rest;
            && s[0] / 32 == major && s[0] % 32 <= 27
            && ReadLen(m, s[0] % 32, s[1..]) == Ok(Definite(n, MinimalWidth(n)), rest)
  {
    var h := Head(major, n);
    var s := h + rest;
    assert s[1..] == h[1..] + rest;
    Pow256Values();
    if n < 24 {
      assert h[1..] == [] && s[1..] == rest;
    } else if n < 0x100 {
      assert [n] == BeBytes(n, 1) by { assert BeBytes(n / 256, 0) == []; }
      assert h[1..] == BeBytes(n, 1);
      ReadNumberOf(n, 1, rest);
    } else if n < 0x1_0000 {
      assert h[1..] == BeBytes(n, 2);
      ReadNumberOf(n, 2, rest);
    } else if n < 0x1_0000_0000 {
      assert h[1..] == BeBytes(n, 4);
      ReadNumberOf(n, 4, rest);
    } else {
      assert h[1..] == BeBytes(n, 8);
      ReadNumberOf(n, 8, rest);
    }
  }

  lemma {:induction false} TrimBeKeepsValue(b: seq<byte>)
    ensures BeVal(TrimBe(b)) == BeVal(b)
  {
    if |b| > 1 && b[0] == 0 {
      TrimBeKeepsValue(b[1..]);
      LeadingZero(b);
    }
  }

  lemma {:induction false} LeadingZero(b: seq<byte>)
    requires b != [] && b[0] == 0
    ensures BeVal(b[1..]) == BeVal(b)
  {
    if |b| > 1 {
      LeadingZero(b[..|b| - 1]);
      assert b[..|b| - 1][1..] == b[1..][..|b| - 2];
    }
  }

  // What `Decode` does on each kind of head.

  lemma DecodesInteger(major: nat, n: nat, rest: seq<byte>, o: Options)
    requires major < 2 && n < U64_BOUND
    ensures Decode(Head(major, n) + rest, o) == Ok(Integer(if major == 0 then n else -1 - n), rest)
  {
    HeadParses(major, n, rest, major);
  }

  lemma DecodesString(n: nat, t: seq<byte>, isText: bool, o: Options)
    requires n < U64_BOUND
    ensures Decode(Head(if isText then 3 else 2, n) + t, o) ==
              var b := ReadExact(t, n); if b.Err? then Err(b.error) else MakeString(b.value, isText, b.rest)
  {
    HeadParses(if isText then 3 else 2, n, t, 2);
  }

  lemma DecodesArray(n: nat, t: seq<byte>, o: Options)
    requires n < U64_BOUND
    ensures Decode(Head(4, n) + t, o) == Materialize(DecodeItems(n, t, [], o))
  {
    HeadParses(4, n, t, 4);
  }

  lemma DecodesMap(n: nat, t: seq<byte>, o: Options)
    requires n < U64_BOUND
    ensures Decode(Head(5, n) + t, o) == MaterializeMap(DecodePairs(n, t, [], o))
  {
    HeadParses(5, n, t, 5);
  }

  lemma DecodesTag(n: nat, t: seq<byte>, o: Options)
    requires n < U64_BOUND
    ensures Decode(Head(6, n) + t, o) ==
              var inner := Decode(t, o); if inner.Err? then Err(inner.error) else Ok(MakeTag(n, inner.value), inner.rest)
  {
    HeadParses(6, n, t, 6);
  }

  /** A byte or text string item. */
  lemma StringRoundTrip(b: seq<byte>, isText: bool, rest: seq<byte>, o: Options)
    requires |b| < U64_BOUND && (isText ==> ValidUtf8(b))
    ensures Decode(Head(if isText then 3 else 2, |b|) + b + rest, o) == Ok(if isText then Text(b) else Bytes(b), rest)
  {
    var h := Head(if isText then 3 else 2, |b|);
    assert h + b + rest == h + (b + rest);
    DecodesString(|b|, b + rest, isText, o);
    ReadBytes(b, rest);
  }

  lemma BignumContent(n: nat)
    requires n < I128_BOUND
    ensures var b := TrimBe(BeBytes(n, 16)); |b| <= 16 && BignumMagnitude(b) == n
  {
    Pow256Values();
    BeValBytes(n, 16);
    TrimBeKeepsValue(BeBytes(n, 16));
  }

  /** A big integer: the collapsed tag gives back the number. */
  lemma BignumRoundTrip(tag: nat, n: nat, rest: seq<byte>, o: Options)
    requires (tag == 2 || tag == 3) && n < I128_BOUND
    ensures Decode(Bignum(tag, n) + rest, o) == Ok(Integer(if tag == 2 then n else -1 - n), rest)
  {
    var b := TrimBe(BeBytes(n, 16));
    BignumContent(n);
    BignumMade(tag, n, b);
    TaggedBytes(tag, b, rest, o);
  }

  lemma BignumMade(tag: nat, n: nat, b: seq<byte>)
    requires (tag == 2 || tag == 3) && |b| <= 16 && BignumMagnitude(b) == n
    ensures MakeTag(tag, Bytes(b)) == Integer(if tag == 2 then n else -1 - n)
  {}

  lemma TaggedBytes(tag: nat, b: seq<byte>, rest: seq<byte>, o: Options)
    requires tag < U64_BOUND && |b| < U64_BOUND
    ensures Decode(Head(6, tag) + Head(2, |b|) + b + rest, o) == Ok(MakeTag(tag, Bytes(b)), rest)
  {
    var body := Head(2, |b|) + b + rest;
    assert Head(6, tag) + Head(2, |b|) + b + rest == Head(6, tag) + body;
    DecodesTag(tag, body, o);
    StringRoundTrip(b, false, rest, o);
  }

  lemma IntegerRoundTrip(i: int, rest: seq<byte>, o: Options)
    requires -I128_BOUND <= i < I128_BOUND
    ensures Decode(EncodeInteger(i) + rest, o) == Ok(Integer(i), rest)
  {
    if 0 <= i < U64_BOUND {
      DecodesInteger(0, i, rest, o);
    } else if 0 <= i {
      BignumRoundTrip(2, i, rest, o);
    } else if -i - 1 < U64_BOUND {
      DecodesInteger(1, -i - 1, rest, o);
    } else {
      BignumRoundTrip(3, -i - 1, rest, o);
    }
  }

  lemma SimpleRoundTrip(v: Value, rest: seq<byte>, o: Options)
    requires WellFormed(v, o) && (v.Bool? || v.Null? || v.Undefined? || v.Simple?)
    ensures Decode(Encode(v) + rest, o) == Ok(v, rest)
  {
    var s := Encode(v) + rest;
    assert s[0] / 32 == 7;
    if v.Simple? && v.s > 23 {
      assert s[1..] == [v.s] + rest;
    } else {
      assert s[1..] == rest;
    }
  }

  /**
   Round trip with exact consumption: for every well-formed value and any trailing bytes, decoding
   the encoding returns the value and leaves exactly the trailing bytes.
   */
  lemma {:induction false} RoundTrip(v: Value, rest: seq<byte>, o: Options)
    requires WellFormed(v, o)
    ensures Decode(Encode(v) + rest, o) == Ok(v, rest)
    decreases v
  {
    match v
    case Integer(i) => IntegerRoundTrip(i, rest, o);
    case Bytes(b) => StringRoundTrip(b, false, rest, o);
    case Text(t) => StringRoundTrip(t, true, rest, o);
    case Array(items) => ArrayRoundTrip(items, rest, o);
    case Map(ps) => MapRoundTrip(ps, rest, o);
    case Tag(tag, inner) =>
      RoundTrip(inner, rest, o);
      assert Encode(v) + rest == Head(6, tag) + (Encode(inner) + rest);
      DecodesTag(tag, Encode(inner) + rest, o);
    case _ => SimpleRoundTrip(v, rest, o);
  }

  lemma {:induction false} ArrayRoundTrip(items: seq<Value>, rest: seq<byte>, o: Options)
    requires WellFormed(Array(items), o)
    ensures Decode(Encode(Array(items)) + rest, o) == Ok(Array(items), rest)
    decreases items, 1
  {
    ItemsRoundTrip(items, rest, [], o);
    Nothing(items);
    var body := EncodeItems(items) + rest;
    assert Encode(Array(items)) + rest == Head(4, |items|) + body;
    DecodesArray(|items|, body, o);
  }

  lemma MapHead(ps: seq<Pair>, rest: seq<byte>)
    ensures Encode(Map(ps)) + rest == Head(5, |ps|) + (EncodePairs(ps) + rest)
  {}

  lemma {:induction false} MapRoundTrip(ps: seq<Pair>, rest: seq<byte>, o: Options)
    requires WellFormed(Map(ps), o)
    ensures Decode(Encode(Map(ps)) + rest, o) == Ok(Map(ps), rest)
    decreases ps, 2
  {
    AllPairsRoundTrip(ps, rest, o);
    DecodesMap(|ps|, EncodePairs(ps) + rest, o);
    assert Encode(Map(ps)) + rest == Head(5, |ps|) + (EncodePairs(ps) + rest) by { MapHead(ps, rest); }
  }

  lemma {:induction false} AllPairsRoundTrip(ps: seq<Pair>, rest: seq<byte>, o: Options)
    requires (forall i :: 0 <= i < |ps| ==> WellFormedPair(ps[i], o)) && KeysInOrder(ps, o)
    ensures DecodePairs(|ps|, EncodePairs(ps) + rest, [], o) == Ok(ps, rest)
    decreases ps, 1
  {
    Nothing(ps);
    PairsRoundTrip(ps, rest, [], o);
  }

  lemma ItemsHead(items: seq<Value>, rest: seq<byte>)
    requires items != []
    ensures EncodeItems(items) + rest == Encode(items[0]) + (EncodeItems(items[1..]) + rest)
  {}

  lemma ItemsStep(n: nat, s: seq<byte>, acc: seq<Value>, o: Options, v: Value, t: seq<byte>)
    requires n > 0 && Decode(s, o) == Ok(v, t)
    ensures DecodeItems(n, s, acc, o) == DecodeItems(n - 1, t, acc + [v], o)
  {}

  lemma {:induction false} ItemsRoundTrip(items: seq<Value>, rest: seq<byte>, acc: seq<Value>, o: Options)
    requires forall i :: 0 <= i < |items| ==> WellFormed(items[i], o)
    ensures DecodeItems(|items|, EncodeItems(items) + rest, acc, o) == Ok(acc + items, rest)
    decreases items, 0
  {
    if items == [] {
      assert EncodeItems(items) + rest == rest && acc + items == acc;
    } else {
      RoundTrip(items[0], EncodeItems(items[1..]) + rest, o);
      ItemsRoundTrip(items[1..], rest, acc + [items[0]], o);
      ItemsCons(items, EncodeItems(items[1..]) + rest, rest, acc, o);
    }
  }

  lemma ItemsCons(items: seq<Value>, tail: seq<byte>, rest: seq<byte>, acc: seq<Value>, o: Options)
    requires items != [] && tail == EncodeItems(items[1..]) + rest
    requires Decode(Encode(items[0]) + tail, o) == Ok(items[0], tail)
    requires DecodeItems(|items| - 1, tail, acc + [items[0]], o) == Ok(acc + [items[0]] + items[1..], rest)
    ensures DecodeItems(|items|, EncodeItems(items) + rest, acc, o) == Ok(acc + items, rest)
  {
    assert EncodeItems(items) + rest == Encode(items[0]) + tail by { ItemsHead(items, rest); }
    ItemsStep(|items|, Encode(items[0]) + tail, acc, o, items[0], tail);
    Regroup(acc, items);
  }

  lemma {:induction false} PairRoundTrip(p: Pair, rest: seq<byte>, acc: seq<Pair>, o: Options)
    requires WellFormedPair(p, o)
    requires KeyAccepted(acc, p.key, o)
    ensures DecodePair(EncodePair(p) + rest, acc, o) == Ok(p, rest)
    decreases p
  {
    assert EncodePair(p) + rest == Encode(p.key) + (Encode(p.val) + rest);
    RoundTrip(p.key, Encode(p.val) + rest, o);
    RoundTrip(p.val, rest, o);
  }

  /** What `DecodePair` demands of the next key, given the pairs before it. */
  ghost predicate KeyAccepted(acc: seq<Pair>, key: Value, o: Options)
  {
    && (o.rejectDuplicateKeys || o.canonical ==> !HasKey(acc, key))
    && (o.canonical && acc != [] ==> KeyLess(acc[|acc| - 1].key, key))
  }

  /** The keys of a map meet the demands of the options. */
  ghost predicate KeysInOrder(ps: seq<Pair>, o: Options)
  {
    && (o.rejectDuplicateKeys || o.canonical ==> DistinctKeys(ps))
    && (o.canonical ==> SortedKeys(ps))
  }

  lemma NextKeyAccepted(acc: seq<Pair>, p: Pair, tail: seq<Pair>, o: Options)
    requires KeysInOrder(acc + ([p] + tail), o)
    ensures KeyAccepted(acc, p.key, o)
  {
    var all := acc + ([p] + tail);
    assert all[|acc|] == p && forall i :: 0 <= i < |acc| ==> all[i] == acc[i];
  }

  lemma PairsHead(ps: seq<Pair>, rest: seq<byte>)
    requires ps != []
    ensures EncodePairs(ps) + rest == EncodePair(ps[0]) + (EncodePairs(ps[1..]) + rest)
  {}

  lemma PairsStep(n: nat, s: seq<byte>, acc: seq<Pair>, o: Options, p: Pair, t: seq<byte>)
    requires n > 0 && DecodePair(s, acc, o) == Ok(p, t)
    ensures DecodePairs(n, s, acc, o) == DecodePairs(n - 1, t, acc + [p], o)
  {}

  lemma {:induction false} PairsRoundTrip(ps: seq<Pair>, rest: seq<byte>, acc: seq<Pair>, o: Options)
    requires forall i :: 0 <= i < |ps| ==> WellFormedPair(ps[i], o)
    requires KeysInOrder(acc + ps, o)
    ensures DecodePairs(|ps|, EncodePairs(ps) + rest, acc, o) == Ok(acc + ps, rest)
    decreases ps, 0
  {
    if ps == [] {
      assert EncodePairs(ps) + rest == rest && acc + ps == acc;
    } else {
      var tail := EncodePairs(ps[1..]) + rest;
      assert ps == [ps[0]] + ps[1..];
      NextKeyAccepted(acc, ps[0], ps[1..], o);
      PairsHead(ps, rest);
      PairRoundTrip(ps[0], tail, acc, o);
      PairsStep(|ps|, EncodePair(ps[0]) + tail, acc, o, ps[0], tail);
      assert acc + [ps[0]] + ps[1..] == acc + ps;
      PairsRoundTrip(ps[1..], rest, acc + [ps[0]], o);
    }
  }

  /** Different well-formed values never have encodings of which one starts with the other. */
  lemma PrefixFree(v: Value, w: Value, x: seq<byte>, y: seq<byte>, o: Options)
    requires WellFormed(v, o) && WellFormed(w, o) && Encode(v) + x == Encode(w) + y
    ensures v == w && x == y
  {
    RoundTrip(v, x, o);
    RoundTrip(w, y, o);
  }

  /** Different well-formed values have different encodings. */
  lemma EncodeInjective(v: Value, w: Value, o: Options)
    requires WellFormed(v, o) && WellFormed(w, o) && Encode(v) == Encode(w)
    ensures v == w
  {
    PrefixFree(v, w, [], [], o);
  }

  /** Exactly when a collapsed bignum tag yields the number its bytes spell. */
  lemma BignumCollapse(tag: nat, b: seq<byte>)
    requires (tag == 2 || tag == 3) && |b| <= 16
    ensures MakeTag(tag, Bytes(b)) == Integer(if tag == 2 then BeVal(b) else -1 - BeVal(b)) <==> |b| < 16 || b[0] < 0x80
  {
    Pow256Values();
    BeBytesVal(b);
    if |b| == 16 {
      TopByteDecides(b);
    } else {
      Pow256Mono(|b|, 15);
    }
  }

  lemma TopByteDecides(b: seq<byte>)
    requires b != []
    ensures b[0] < 0x80 <==> BeVal(b) < 0x80 * Pow256(|b| - 1)
  {
    LeadingByte(b);
    BeBytesVal(b[1..]);
    HalfDecides(b[0], Pow256(|b| - 1), BeVal(b[1..]));
  }

  lemma HalfDecides(x: nat, p: nat, r: nat)
    requires r < p
    ensures x < 0x80 <==> x * p + r < 0x80 * p
  {
    if x < 0x80 { AtMost(x, 0x7f, p); } else { AtMost(0x80, x, p); }
  }

  lemma AtMost(x: nat, y: nat, p: nat)
    requires x <= y
    ensures x * p <= y * p
  {
    assert (y - x) * p >= 0;
    assert (y - x) * p == y * p - x * p;
  }

  lemma {:induction false} LeadingByte(b: seq<byte>)
    requires b != []
    ensures BeVal(b) == b[0] * Pow256(|b| - 1) + BeVal(b[1..])
  {
    if |b| == 1 {
      assert b[..0] == [];
    } else {
      var n := |b| - 1;
      LeadingByte(b[..n]);
      assert b[..n][1..] == b[1..][..n - 1];
      assert 256 * (b[0] * Pow256(n - 1)) == b[0] * Pow256(n);
    }
  }

  lemma {:induction false} Pow256Mono(m: nat, n: nat)
    requires m <= n
    ensures Pow256(m) <= Pow256(n)
  {
    if m < n { Pow256Mono(m, n - 1); }
  }
}
