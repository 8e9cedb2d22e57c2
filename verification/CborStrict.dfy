/**
 What the strictness options change: a stricter decoder accepts less but never returns another
 value, and everything it accepts has its maps in the demanded order. This makes the round trip
 exact: under any options it succeeds if and only if the maps of the value are in order.
 */
module CborStrict {
  import opened BigEndian
  import opened CborValue
  import opened CborDecode
  import opened CborRoundTrip
  import opened CborCanonical

  /** Every map of the value, keys included, has its entries as the options demand. */
  ghost predicate MapsInOrder(v: Value, o: Options)
    decreases v
  {
    match v
    case Array(items) => forall i :: 0 <= i < |items| ==> MapsInOrder(items[i], o)
    case Map(ps) => KeysInOrder(ps, o) && forall i :: 0 <= i < |ps| ==> PairInOrder(ps[i], o)
    case Tag(tag, inner) => MapsInOrder(inner, o)
    case _ => true
  }

  ghost predicate PairInOrder(p: Pair, o: Options)
    decreases p
  {
    MapsInOrder(p.key, o) && MapsInOrder(p.val, o)
  }

  lemma LessTransitive(a: Value, b: Value, c: Value)
    requires KeyLess(a, b) && KeyLess(b, c)
    ensures KeyLess(a, c)
  {
    KeyTransitive(Encode(a), Encode(b), Encode(c));
    KeyTotal(Encode(a), Encode(b));
    if Encode(a) == Encode(c) { KeyTotal(Encode(b), Encode(c)); }
  }

  /** An accepted key keeps the entries in order. */
  lemma OrderExtends(acc: seq<Pair>, p: Pair, o: Options)
    requires KeysInOrder(acc, o) && KeyAccepted(acc, p.key, o)
    ensures KeysInOrder(acc + [p], o)
  {
    var r := acc + [p];
    if o.rejectDuplicateKeys || o.canonical {
      forall i, j | 0 <= i < j < |r| ensures r[i].key != r[j].key {
        if j == |acc| { assert !HasKey(acc, p.key); }
      }
    }
    if o.canonical {
      forall i, j | 0 <= i < j < |r| ensures KeyLess(r[i].key, r[j].key) {
        if j == |acc| && i < |acc| - 1 {
          LessTransitive(acc[i].key, acc[|acc| - 1].key, p.key);
        }
      }
    }
  }

  lemma {:induction false} DecodeAgrees(s: seq<byte>, o: Options)
    requires Decode(s, o).Ok?
    ensures Decode(s, DEFAULT) == Decode(s, o) && MapsInOrder(Decode(s, o).value, o)
    decreases |s|, 0
  {
    var major, ai, t := s[0] / 32, s[0] % 32, s[1..];
    if major == 4 {
      ArrayAgrees(ai, t, o);
    } else if major == 5 {
      MapAgrees(ai, t, o);
    } else if major == 6 {
      TagAgrees(ai, t, o);
    }
  }

  lemma {:induction false} ArrayAgrees(ai: nat, s: seq<byte>, o: Options)
    requires ai < 32 && DecodeArray(ai, s, o).Ok?
    ensures DecodeArray(ai, s, DEFAULT) == DecodeArray(ai, s, o) && MapsInOrder(DecodeArray(ai, s, o).value, o)
    decreases |s|, 3
  {
    var len := ReadLen(4, ai, s);
    if len.value.Definite? {
      ItemsAgree(len.value.n, len.rest, [], o);
    } else {
      ItemsUntilBreakAgree(len.rest, [], o);
    }
  }

  lemma {:induction false} MapAgrees(ai: nat, s: seq<byte>, o: Options)
    requires ai < 32 && DecodeMap(ai, s, o).Ok?
    ensures DecodeMap(ai, s, DEFAULT) == DecodeMap(ai, s, o) && MapsInOrder(DecodeMap(ai, s, o).value, o)
    decreases |s|, 3
  {
    var len := ReadLen(5, ai, s);
    if len.value.Definite? {
      PairsAgree(len.value.n, len.rest, [], o);
    } else {
      PairsUntilBreakAgree(len.rest, [], o);
    }
  }

  lemma {:induction false} TagAgrees(ai: nat, s: seq<byte>, o: Options)
    requires ai < 32 && DecodeTag(ai, s, o).Ok?
    ensures DecodeTag(ai, s, DEFAULT) == DecodeTag(ai, s, o) && MapsInOrder(DecodeTag(ai, s, o).value, o)
    decreases |s|, 3
  {
    DecodeAgrees(ReadLen(6, ai, s).rest, o);
  }

  ghost predicate ItemsInOrder(items: seq<Value>, o: Options)
  {
    forall i :: 0 <= i < |items| ==> MapsInOrder(items[i], o)
  }

  lemma InOrderExtends(acc: seq<Value>, v: Value, o: Options)
    requires ItemsInOrder(acc, o) && MapsInOrder(v, o)
    ensures ItemsInOrder(acc + [v], o)
  {}

  lemma {:induction false} FirstItemAgrees(n: nat, s: seq<byte>, acc: seq<Value>, o: Options)
    requires n > 0 && DecodeItems(n, s, acc, o).Ok?
    ensures var item := Decode(s, o);
            && item.Ok? && MapsInOrder(item.value, o)
            && DecodeItems(n, s, acc, o) == DecodeItems(n - 1, item.rest, acc + [item.value], o)
            && DecodeItems(n, s, acc, DEFAULT) == DecodeItems(n - 1, item.rest, acc + [item.value], DEFAULT)
    decreases |s|, 1
  {
    DecodeAgrees(s, o);
  }

  lemma {:induction false} ItemsAgree(n: nat, s: seq<byte>, acc: seq<Value>, o: Options)
    requires DecodeItems(n, s, acc, o).Ok? && ItemsInOrder(acc, o)
    ensures DecodeItems(n, s, acc, DEFAULT) == DecodeItems(n, s, acc, o)
    ensures ItemsInOrder(DecodeItems(n, s, acc, o).value, o)
    decreases |s|, 2
  {
    if n > 0 {
      FirstItemAgrees(n, s, acc, o);
      var item := Decode(s, o);
      InOrderExtends(acc, item.value, o);
      ItemsAgree(n - 1, item.rest, acc + [item.value], o);
    }
  }

  lemma {:induction false} ItemsUntilBreakAgree(s: seq<byte>, acc: seq<Value>, o: Options)
    requires DecodeItemsUntilBreak(s, acc, o).Ok? && forall i :: 0 <= i < |acc| ==> MapsInOrder(acc[i], o)
    ensures DecodeItemsUntilBreak(s, acc, DEFAULT) == DecodeItemsUntilBreak(s, acc, o)
    ensures MapsInOrder(Array(DecodeItemsUntilBreak(s, acc, o).value), o)
    decreases |s|, 1
  {
    if s[0] != 0xff {
      var item := Decode(s, o);
      DecodeAgrees(s, o);
      ItemsUntilBreakAgree(item.rest, acc + [item.value], o);
    }
  }

  lemma {:induction false} PairAgrees(s: seq<byte>, acc: seq<Pair>, o: Options)
    requires DecodePair(s, acc, o).Ok?
    ensures DecodePair(s, acc, DEFAULT) == DecodePair(s, acc, o)
    ensures PairInOrder(DecodePair(s, acc, o).value, o) && KeyAccepted(acc, DecodePair(s, acc, o).value.key, o)
    decreases |s|, 1
  {
    DecodeAgrees(s, o);
    DecodeAgrees(Decode(s, o).rest, o);
  }

  lemma {:induction false} PairsAgree(n: nat, s: seq<byte>, acc: seq<Pair>, o: Options)
    requires DecodePairs(n, s, acc, o).Ok? && MapsInOrder(Map(acc), o)
    ensures DecodePairs(n, s, acc, DEFAULT) == DecodePairs(n, s, acc, o)
    ensures MapsInOrder(Map(DecodePairs(n, s, acc, o).value), o)
    decreases |s|, 2
  {
    if n > 0 {
      var p := DecodePair(s, acc, o);
      PairAgrees(s, acc, o);
      OrderExtends(acc, p.value, o);
      PairsAgree(n - 1, p.rest, acc + [p.value], o);
    }
  }

  lemma {:induction false} PairsUntilBreakAgree(s: seq<byte>, acc: seq<Pair>, o: Options)
    requires DecodePairsUntilBreak(s, acc, o).Ok? && MapsInOrder(Map(acc), o)
    ensures DecodePairsUntilBreak(s, acc, DEFAULT) == DecodePairsUntilBreak(s, acc, o)
    ensures MapsInOrder(Map(DecodePairsUntilBreak(s, acc, o).value), o)
    decreases |s|, 2
  {
    if s[0] != 0xff {
      var p := DecodePair(s, acc, o);
      PairAgrees(s, acc, o);
      OrderExtends(acc, p.value, o);
      PairsUntilBreakAgree(p.rest, acc + [p.value], o);
    }
  }

  lemma {:induction false} WellFormedSplits(v: Value, o: Options)
    ensures WellFormed(v, o) <==> WellFormed(v, DEFAULT) && MapsInOrder(v, o)
    decreases v
  {
    match v
    case Array(items) =>
      forall i | 0 <= i < |items| ensures WellFormed(items[i], o) <==> WellFormed(items[i], DEFAULT) && MapsInOrder(items[i], o) {
        WellFormedSplits(items[i], o);
      }
    case Map(ps) =>
      forall i | 0 <= i < |ps| ensures WellFormedPair(ps[i], o) <==> WellFormedPair(ps[i], DEFAULT) && PairInOrder(ps[i], o) {
        PairSplits(ps[i], o);
      }
    case Tag(tag, inner) => WellFormedSplits(inner, o);
    case _ =>
  }

  lemma {:induction false} PairSplits(p: Pair, o: Options)
    ensures WellFormedPair(p, o) <==> WellFormedPair(p, DEFAULT) && PairInOrder(p, o)
    decreases p
  {
    WellFormedSplits(p.key, o);
    WellFormedSplits(p.val, o);
  }

  /** Under any options, an encoding is accepted if and only if the maps of the value are in order. */
  lemma RoundTripIff(v: Value, rest: seq<byte>, o: Options)
    requires WellFormed(v, DEFAULT)
    ensures Decode(Encode(v) + rest, o).Ok? <==> MapsInOrder(v, o)
    ensures MapsInOrder(v, o) ==> Decode(Encode(v) + rest, o) == Ok(v, rest)
  {
    WellFormedSplits(v, o);
    if MapsInOrder(v, o) {
      RoundTrip(v, rest, o);
    } else if Decode(Encode(v) + rest, o).Ok? {
      RoundTrip(v, rest, DEFAULT);
      DecodeAgrees(Encode(v) + rest, o);
    }
  }

  /**
   The canonical decoder accepts a canonical encoding, and returns the sorted value, if and only if the keys of
   the value agree: only then is the order that they were sorted in the order of what is written. Distinct keys that
   hold no maps always agree.
   */
  lemma CanonicalAcceptedIff(v: Value, rest: seq<byte>)
    requires WellFormed(v, DEFAULT)
    ensures Decode(Encode(Canon(v)) + rest, CANONICAL).Ok? <==> KeysAgree(v)
    ensures KeysAgree(v) ==> Decode(Encode(Canon(v)) + rest, CANONICAL) == Ok(Canon(v), rest)
    ensures PlainKeys(v) ==> KeysAgree(v)
  {
    if PlainKeys(v) { PlainKeysAgree(v); }
    CanonStays(v);
    CanonWellFormed(v);
    WellFormedSplits(Canon(v), CANONICAL);
    RoundTripIff(Canon(v), rest, CANONICAL);
  }

  /** The map {a: null, b: null}, for small numbers. */
  function TwoKeys(a: nat, b: nat): (v: Value)
  {
    Map([Pair(Integer(a), Null), Pair(Integer(b), Null)])
  }

  lemma SmallEntry(a: nat)
    requires a < 24
    ensures Encode(Integer(a)) == [a] && EncodePair(Pair(Integer(a), Null)) == [a, 0xf6]
  {
    assert Encode(Null) == [0xf6];
  }

  lemma TwoKeysEncoding(a: nat, b: nat)
    requires a < 24 && b < 24
    ensures Encode(TwoKeys(a, b)) == [0xa2, a, 0xf6, b, 0xf6] && WellFormed(TwoKeys(a, b), DEFAULT)
  {
    var p, q := Pair(Integer(a), Null), Pair(Integer(b), Null);
    SmallEntry(a);
    SmallEntry(b);
    assert [p, q][1..] == [q] && [q][1..] == [];
    assert EncodePairs([q]) == EncodePair(q) + EncodePairs([]);
    assert EncodePairs([p, q]) == EncodePair(p) + EncodePairs([q]);
    assert WellFormed(Null, DEFAULT);
    assert WellFormedPair(p, DEFAULT) && WellFormedPair(q, DEFAULT);
  }

  /** Sorting two entries. */
  lemma SortTwo(p: Pair, q: Pair)
    ensures SortPairs([p, q]) == if KeyLeq(Encode(p.key), Encode(q.key)) then [p, q] else [q, p]
  {
    assert [p, q][1..] == [q] && [q][1..] == [];
    assert SortPairs([q]) == InsertPair(q, SortPairs([])) == [q];
    assert InsertPair(p, []) == [p];
    assert SortPairs([p, q]) == InsertPair(p, [q]);
    assert [q] + [p] == [q, p] && [p] + [q] == [p, q];
  }

  lemma TwoKeysCanon(a: nat, b: nat)
    requires a < 24 && b < 24
    ensures Canon(TwoKeys(a, b)) == if a <= b then TwoKeys(a, b) else TwoKeys(b, a)
  {
    var p, q := Pair(Integer(a), Null), Pair(Integer(b), Null);
    SmallEntry(a);
    SmallEntry(b);
    OneByteOrder(Encode(Integer(a)), Encode(Integer(b)));
    SortTwo(p, q);
    CanonMapAt([p, q]);
  }

  lemma OneByteOrder(x: seq<byte>, y: seq<byte>)
    requires |x| == 1 && |y| == 1
    ensures KeyLeq(x, y) <==> x[0] <= y[0]
  {
    assert x[1..] == [];
    assert LexLeq(x[1..], y[1..]);
  }

  lemma {:induction false} FirstDifference(a: seq<byte>, b: seq<byte>, i: nat)
    requires |a| == |b| && i < |a| && a[..i] == b[..i] && a[i] < b[i]
    ensures LexLeq(a, b) && !LexLeq(b, a)
  {
    if i > 0 {
      assert a[0] == a[..i][0] == b[..i][0] == b[0];
      assert a[1..][..i - 1] == a[..i][1..] && b[1..][..i - 1] == b[..i][1..];
      FirstDifference(a[1..], b[1..], i - 1);
    }
  }

  /** {{a, b}: null, {b, c}: null} */
  function MapKeyed(a: nat, b: nat, c: nat): (v: Value)
  {
    Map([Pair(TwoKeys(a, b), Null), Pair(TwoKeys(b, c), Null)])
  }

  /** Sorted by the keys as given, but written with the keys sorted inside: out of order. */
  lemma MapKeysSwapped(a: nat, b: nat, c: nat)
    requires b < a < c < 24
    ensures Canon(MapKeyed(a, b, c)) == Map([Pair(TwoKeys(b, c), Null), Pair(TwoKeys(b, a), Null)])
  {
    SwappedBySort(a, b, c);
    CanonTwo(Pair(TwoKeys(a, b), Null), Pair(TwoKeys(b, c), Null));
    TwoKeysCanon(a, b);
    TwoKeysCanon(b, c);
  }

  lemma CanonTwo(p: Pair, q: Pair)
    requires SortPairs([p, q]) == [q, p] && p.val == q.val == Null
    ensures Canon(Map([p, q])) == Map([Pair(Canon(q.key), Null), Pair(Canon(p.key), Null)])
  {
    CanonMapAt([p, q]);
  }

  lemma SwappedBySort(a: nat, b: nat, c: nat)
    requires b < a < c < 24
    ensures var p, q := Pair(TwoKeys(a, b), Null), Pair(TwoKeys(b, c), Null); SortPairs([p, q]) == [q, p]
  {
    var p, q := Pair(TwoKeys(a, b), Null), Pair(TwoKeys(b, c), Null);
    TwoKeysEncoding(a, b);
    TwoKeysEncoding(b, c);
    FirstDifference(Encode(q.key), Encode(p.key), 1);
    SortTwo(p, q);
  }

  lemma OutOfOrderRejected(a: nat, b: nat, c: nat)
    requires b < a < c < 24
    ensures DecodeAll(Encode(Map([Pair(TwoKeys(b, c), Null), Pair(TwoKeys(b, a), Null)])), CANONICAL).Err?
  {
    var p, q := Pair(TwoKeys(b, c), Null), Pair(TwoKeys(b, a), Null);
    var r := Map([p, q]);
    assert !KeyLess(r.pairs[0].key, r.pairs[1].key) by {
      TwoKeysEncoding(b, c);
      TwoKeysEncoding(b, a);
      FirstDifference(Encode(q.key), Encode(p.key), 3);
    }
    assert !MapsInOrder(r, CANONICAL);
    assert WellFormed(r, DEFAULT) by {
      TwoKeysEncoding(b, c);
      TwoKeysEncoding(b, a);
      assert WellFormedPair(p, DEFAULT) && WellFormedPair(q, DEFAULT);
    }
    RoundTripIff(r, [], CANONICAL);
    assert Encode(r) + [] == Encode(r);
  }

  /**
   Keys that contain maps are sorted by encodings other than the ones written. So for all
   b < a < c < 24 the canonical encoding of {{a, b}: null, {b, c}: null}, a well-formed map with
   distinct keys, is rejected by the canonical decoder.
   */
  lemma MapKeysRejected(a: nat, b: nat, c: nat)
    requires b < a < c < 24
    ensures WellFormed(MapKeyed(a, b, c), DEFAULT) && DistinctKeys(MapKeyed(a, b, c).pairs)
    ensures DecodeAll(Encode(Canon(MapKeyed(a, b, c))), CANONICAL).Err?
  {
    MapKeyedOk(a, b, c);
    MapKeysSwapped(a, b, c);
    OutOfOrderRejected(a, b, c);
  }

  lemma MapKeyedOk(a: nat, b: nat, c: nat)
    requires b < a < c < 24
    ensures WellFormed(MapKeyed(a, b, c), DEFAULT) && DistinctKeys(MapKeyed(a, b, c).pairs)
  {
    var p, q := Pair(TwoKeys(a, b), Null), Pair(TwoKeys(b, c), Null);
    TwoKeysEncoding(a, b);
    TwoKeysEncoding(b, c);
    assert p.key.pairs[0].key != q.key.pairs[0].key;
    assert WellFormedPair(p, DEFAULT) && WellFormedPair(q, DEFAULT);
  }
}
