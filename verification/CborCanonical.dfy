/** Canonical encoding does not depend on the order of map entries, and the canonical decoder accepts it. */
module CborCanonical {
  import opened BigEndian
  import opened CborValue
  import opened CborDecode
  import opened CborRoundTrip

  const DEFAULT: Options := Options(false, false, false)
  const CANONICAL: Options := Options(true, true, true)

  // ----- the key order is total -----

  lemma {:induction false} LexTotal(a: seq<byte>, b: seq<byte>)
    ensures LexLeq(a, b) || LexLeq(b, a)
    ensures LexLeq(a, b) && LexLeq(b, a) ==> a == b
  {
    if a != [] && b != [] {
      LexTotal(a[1..], b[1..]);
      assert a == [a[0]] + a[1..] && b == [b[0]] + b[1..];
    }
  }

  lemma {:induction false} LexTransitive(a: seq<byte>, b: seq<byte>, c: seq<byte>)
    requires LexLeq(a, b) && LexLeq(b, c)
    ensures LexLeq(a, c)
  {
    if a != [] && a[0] == b[0] == c[0] { LexTransitive(a[1..], b[1..], c[1..]); }
  }

  lemma KeyTotal(a: seq<byte>, b: seq<byte>)
    ensures KeyLeq(a, b) || KeyLeq(b, a)
    ensures KeyLeq(a, b) && KeyLeq(b, a) ==> a == b
  {
    LexTotal(a, b);
  }

  lemma KeyTransitive(a: seq<byte>, b: seq<byte>, c: seq<byte>)
    requires KeyLeq(a, b) && KeyLeq(b, c)
    ensures KeyLeq(a, c)
  {
    if |a| == |b| == |c| { LexTransitive(a, b, c); }
  }

  // ----- sorting -----

  /** Entry `p` may stand before every entry of `ps`. */
  ghost predicate Before(p: Pair, ps: seq<Pair>)
  {
    forall q :: q in ps ==> KeyLeq(Encode(p.key), Encode(q.key))
  }

  ghost predicate Ordered(ps: seq<Pair>)
  {
    ps == [] || (Before(ps[0], ps[1..]) && Ordered(ps[1..]))
  }

  lemma {:induction false} InsertMembers(p: Pair, ps: seq<Pair>)
    ensures forall q :: q in InsertPair(p, ps) <==> q == p || q in ps
  {
    var r := InsertPair(p, ps);
    forall q ensures q in r <==> q == p || q in ps {
      assert q in r <==> q in multiset(r);
      assert q in ps <==> q in multiset(ps);
    }
  }

  lemma {:induction false} InsertOrdered(p: Pair, ps: seq<Pair>)
    requires Ordered(ps)
    ensures Ordered(InsertPair(p, ps))
  {
    if ps == [] {
    } else if KeyLeq(Encode(p.key), Encode(ps[0].key)) {
      forall q | q in ps ensures KeyLeq(Encode(p.key), Encode(q.key)) {
        if q != ps[0] {
          assert q in ps[1..];
          KeyTransitive(Encode(p.key), Encode(ps[0].key), Encode(q.key));
        }
      }
      assert ([p] + ps)[1..] == ps;
    } else {
      var r := InsertPair(p, ps[1..]);
      InsertOrdered(p, ps[1..]);
      InsertMembers(p, ps[1..]);
      KeyTotal(Encode(p.key), Encode(ps[0].key));
      assert ([ps[0]] + r)[1..] == r;
    }
  }

  lemma {:induction false} SortOrdered(ps: seq<Pair>)
    ensures Ordered(SortPairs(ps))
  {
    if ps != [] {
      SortOrdered(ps[1..]);
      InsertOrdered(ps[0], SortPairs(ps[1..]));
    }
  }

  lemma {:induction false} OrderedAt(ps: seq<Pair>, i: nat, j: nat)
    requires Ordered(ps) && i < j < |ps|
    ensures KeyLeq(Encode(ps[i].key), Encode(ps[j].key))
  {
    if i == 0 {
      assert ps[j] in ps[1..];
    } else {
      OrderedAt(ps[1..], i - 1, j - 1);
    }
  }

  /** A rearrangement of entries with distinct keys has distinct keys. */
  lemma RearrangedDistinct(ps: seq<Pair>, qs: seq<Pair>)
    requires DistinctKeys(ps) && multiset(ps) == multiset(qs)
    ensures DistinctKeys(qs)
  {
    forall i, j | 0 <= i < j < |qs| ensures qs[i].key != qs[j].key {
      if qs[i].key == qs[j].key {
        assert qs[i] in multiset(qs) && qs[j] in multiset(qs);
        var a :| 0 <= a < |ps| && ps[a] == qs[i];
        var b :| 0 <= b < |ps| && ps[b] == qs[j];
        assert a == b;
        TwiceInMultiset(qs, i, j);
        OnceInMultiset(ps, a);
      }
    }
  }

  lemma TwiceInMultiset(qs: seq<Pair>, i: nat, j: nat)
    requires i < j < |qs| && qs[i] == qs[j]
    ensures multiset(qs)[qs[i]] >= 2
  {
    assert qs == qs[..i] + [qs[i]] + qs[i + 1..j] + [qs[j]] + qs[j + 1..];
  }

  lemma OnceInMultiset(ps: seq<Pair>, a: nat)
    requires DistinctKeys(ps) && a < |ps|
    ensures multiset(ps)[ps[a]] == 1
  {
    assert ps == ps[..a] + [ps[a]] + ps[a + 1..];
    assert ps[a] !in ps[..a] && ps[a] !in ps[a + 1..];
  }

  ghost predicate WellFormedKeys(ps: seq<Pair>)
  {
    forall i :: 0 <= i < |ps| ==> WellFormed(ps[i].key, DEFAULT)
  }

  /** Sorting entries with distinct keys puts the keys in strictly increasing order. */
  lemma SortStrict(ps: seq<Pair>)
    requires DistinctKeys(ps) && WellFormedKeys(ps)
    ensures SortedKeys(SortPairs(ps)) && DistinctKeys(SortPairs(ps)) && WellFormedKeys(SortPairs(ps))
  {
    var r := SortPairs(ps);
    SortOrdered(ps);
    RearrangedDistinct(ps, r);
    forall i | 0 <= i < |r| ensures WellFormed(r[i].key, DEFAULT) {
      assert r[i] in ps;
    }
    forall i, j | 0 <= i < j < |r| ensures KeyLess(r[i].key, r[j].key) {
      OrderedAt(r, i, j);
      if Encode(r[i].key) == Encode(r[j].key) { EncodeInjective(r[i].key, r[j].key, DEFAULT); }
    }
  }

  // ----- a strictly sorted list is determined by its keys -----

  ghost predicate KeysWithin(ps: seq<Pair>, qs: seq<Pair>)
  {
    forall i :: 0 <= i < |ps| ==> HasKey(qs, ps[i].key)
  }

  lemma LessAsymmetric(a: Value, b: Value)
    requires KeyLess(a, b)
    ensures !KeyLess(b, a) && a != b
  {
    KeyTotal(Encode(a), Encode(b));
  }

  lemma LeastKeysAgree(ps: seq<Pair>, qs: seq<Pair>)
    requires ps != [] && qs != [] && SortedKeys(ps) && SortedKeys(qs) && KeysWithin(ps, qs) && KeysWithin(qs, ps)
    ensures ps[0].key == qs[0].key
  {
    var j :| 0 <= j < |qs| && qs[j].key == ps[0].key;
    assert HasKey(ps, qs[0].key);
    var i :| 0 <= i < |ps| && ps[i].key == qs[0].key;
    if i > 0 && j > 0 {
      assert KeyLess(ps[0].key, ps[i].key) && KeyLess(qs[0].key, qs[j].key);
      LessAsymmetric(ps[0].key, qs[0].key);
    }
  }

  lemma TailKeysWithin(ps: seq<Pair>, qs: seq<Pair>)
    requires ps != [] && qs != [] && SortedKeys(ps) && KeysWithin(ps, qs) && ps[0].key == qs[0].key
    ensures KeysWithin(ps[1..], qs[1..])
  {
    forall i | 0 <= i < |ps| - 1 ensures HasKey(qs[1..], ps[1..][i].key) {
      assert HasKey(qs, ps[i + 1].key);
      var j :| 0 <= j < |qs| && qs[j].key == ps[i + 1].key;
      assert KeyLess(ps[0].key, ps[i + 1].key);
      LessAsymmetric(ps[0].key, ps[i + 1].key);
      assert qs[1..][j - 1].key == ps[i + 1].key;
    }
  }

  lemma {:induction false} SortedKeysAgree(ps: seq<Pair>, qs: seq<Pair>)
    requires SortedKeys(ps) && SortedKeys(qs) && KeysWithin(ps, qs) && KeysWithin(qs, ps)
    ensures |ps| == |qs| && forall i :: 0 <= i < |ps| ==> ps[i].key == qs[i].key
  {
    assert ps != [] ==> HasKey(qs, ps[0].key);
    assert qs != [] ==> HasKey(ps, qs[0].key);
    if ps != [] {
      LeastKeysAgree(ps, qs);
      TailKeysWithin(ps, qs);
      TailKeysWithin(qs, ps);
      SortedKeysAgree(ps[1..], qs[1..]);
      forall i | 0 <= i < |ps| ensures ps[i].key == qs[i].key {
        if i > 0 { assert ps[i] == ps[1..][i - 1] && qs[i] == qs[1..][i - 1]; }
      }
    }
  }

  // ----- order independence -----

  /** The same data item up to the order of entries in maps with distinct keys, outside keys. */
  ghost predicate SameData(v: Value, w: Value)
    decreases v
  {
    match v
    case Array(items) =>
      w.Array? && |items| == |w.items| && forall i :: 0 <= i < |items| ==> SameData(items[i], w.items[i])
    case Map(ps) =>
      && w.Map? && DistinctKeys(ps) && DistinctKeys(w.pairs) && KeysWithin(w.pairs, ps)
      && forall i :: 0 <= i < |ps| ==> HasSamePair(ps[i], w.pairs)
    case Tag(tag, inner) => w.Tag? && tag == w.tag && SameData(inner, w.inner)
    case _ => v == w
  }

  ghost predicate HasSamePair(p: Pair, qs: seq<Pair>)
    decreases p
  {
    exists j :: 0 <= j < |qs| && qs[j].key == p.key && SameData(p.val, qs[j].val)
  }

  /** Values that differ only in the order of map entries have the same canonical form. */
  lemma {:induction false} CanonOrderIndependent(v: Value, w: Value)
    requires SameData(v, w) && WellFormed(v, DEFAULT) && WellFormed(w, DEFAULT)
    ensures Canon(v) == Canon(w)
    decreases v
  {
    match v
    case Array(items) => CanonItemsAgree(items, w.items);
    case Map(ps) => CanonMapAgree(ps, w.pairs);
    case Tag(tag, inner) => CanonOrderIndependent(inner, w.inner);
    case _ =>
  }

  lemma {:induction false} CanonItemsAgree(xs: seq<Value>, ys: seq<Value>)
    requires |xs| == |ys| && forall i :: 0 <= i < |xs| ==> SameData(xs[i], ys[i])
    requires forall i :: 0 <= i < |xs| ==> WellFormed(xs[i], DEFAULT) && WellFormed(ys[i], DEFAULT)
    ensures CanonItems(xs) == CanonItems(ys)
    decreases xs
  {
    if xs != [] {
      CanonOrderIndependent(xs[0], ys[0]);
      CanonItemsAgree(xs[1..], ys[1..]);
    }
  }

  lemma SortedMembersWithin(ps: seq<Pair>, qs: seq<Pair>)
    requires KeysWithin(ps, qs)
    ensures KeysWithin(SortPairs(ps), SortPairs(qs))
  {
    var sp, sq := SortPairs(ps), SortPairs(qs);
    forall i | 0 <= i < |sp| ensures HasKey(sq, sp[i].key) {
      assert sp[i] in ps;
      var a :| 0 <= a < |ps| && ps[a] == sp[i];
      assert HasKey(qs, ps[a].key);
      var b :| 0 <= b < |qs| && qs[b].key == ps[a].key;
      assert qs[b] in multiset(qs);
      var c :| 0 <= c < |sq| && sq[c] == qs[b];
    }
  }

  /** After sorting, entries at the same place have the same key and the same data. */
  lemma SortedPairsAgree(ps: seq<Pair>, qs: seq<Pair>)
    requires SameData(Map(ps), Map(qs)) && WellFormedKeys(ps) && WellFormedKeys(qs)
    ensures var sp, sq := SortPairs(ps), SortPairs(qs);
            && |sp| == |sq|
            && forall k :: 0 <= k < |sp| ==> sp[k].key == sq[k].key && SameData(sp[k].val, sq[k].val)
  {
    var sp, sq := SortPairs(ps), SortPairs(qs);
    assert KeysWithin(ps, qs) by {
      forall i | 0 <= i < |ps| ensures HasKey(qs, ps[i].key) { assert HasSamePair(ps[i], qs); }
    }
    SortedMembersWithin(ps, qs);
    SortedMembersWithin(qs, ps);
    SortStrict(ps);
    SortStrict(qs);
    SortedKeysAgree(sp, sq);
    forall k | 0 <= k < |sp| ensures SameData(sp[k].val, sq[k].val) {
      assert sp[k] in ps;
      var a :| 0 <= a < |ps| && ps[a] == sp[k];
      assert HasSamePair(ps[a], qs);
      var b :| 0 <= b < |qs| && qs[b].key == sp[k].key && SameData(sp[k].val, qs[b].val);
      assert qs[b] in multiset(qs);
      var c :| 0 <= c < |sq| && sq[c] == qs[b];
      assert c == k;
    }
  }

  lemma {:induction false} CanonMapAgree(ps: seq<Pair>, qs: seq<Pair>)
    requires SameData(Map(ps), Map(qs)) && WellFormed(Map(ps), DEFAULT) && WellFormed(Map(qs), DEFAULT)
    ensures Canon(Map(ps)) == Canon(Map(qs))
    decreases ps, 1
  {
    SortedPairsAgree(ps, qs);
    CanonMapAt(ps);
    CanonMapAt(qs);
    var cp, cq := Canon(Map(ps)).pairs, Canon(Map(qs)).pairs;
    forall k | 0 <= k < |cp| ensures cp[k] == cq[k] {
      CanonEntryAgree(ps, qs, SortPairs(ps)[k], SortPairs(qs)[k]);
    }
    assert cp == cq;
  }

  lemma {:induction false} CanonEntryAgree(ps: seq<Pair>, qs: seq<Pair>, p: Pair, q: Pair)
    requires p in ps && q in qs && p.key == q.key && SameData(p.val, q.val)
    requires forall i :: 0 <= i < |ps| ==> WellFormedPair(ps[i], DEFAULT)
    requires forall i :: 0 <= i < |qs| ==> WellFormedPair(qs[i], DEFAULT)
    ensures Canon(p.key) == Canon(q.key) && Canon(p.val) == Canon(q.val)
    decreases ps, 0
  {
    CanonPairAgree(p, q);
  }

  lemma CanonMapAt(ps: seq<Pair>)
    ensures Canon(Map(ps)).Map? && |Canon(Map(ps)).pairs| == |ps|
    ensures forall k :: 0 <= k < |ps| ==>
              Canon(Map(ps)).pairs[k] == Pair(Canon(SortPairs(ps)[k].key), Canon(SortPairs(ps)[k].val))
  {}

  lemma {:induction false} CanonPairAgree(p: Pair, q: Pair)
    requires p.key == q.key && SameData(p.val, q.val) && WellFormedPair(p, DEFAULT) && WellFormedPair(q, DEFAULT)
    ensures Canon(p.key) == Canon(q.key) && Canon(p.val) == Canon(q.val)
    decreases p
  {
    CanonOrderIndependent(p.val, q.val);
  }

  /** Hence their canonical encodings are identical. */
  lemma CanonicalBytesAgree(v: Value, w: Value)
    requires SameData(v, w) && WellFormed(v, DEFAULT) && WellFormed(w, DEFAULT)
    ensures Encode(Canon(v)) == Encode(Canon(w))
  {
    CanonOrderIndependent(v, w);
  }

  // ----- which canonical encodings the canonical decoder accepts -----

  /** Keys in order stay in order when the maps inside them are sorted. */
  ghost predicate OrderKept(ps: seq<Pair>)
  {
    forall i, j :: 0 <= i < |ps| && 0 <= j < |ps| && KeyLess(ps[i].key, ps[j].key) ==>
      KeyLess(Canon(ps[i].key), Canon(ps[j].key))
  }

  /** Every map, those inside keys included, has distinct keys whose order survives sorting inside them. */
  ghost predicate KeysAgree(v: Value)
    decreases v
  {
    match v
    case Array(items) => forall i :: 0 <= i < |items| ==> KeysAgree(items[i])
    case Map(ps) => DistinctKeys(ps) && OrderKept(ps) && forall i :: 0 <= i < |ps| ==> PairAgrees(ps[i])
    case Tag(tag, inner) => KeysAgree(inner)
    case _ => true
  }

  ghost predicate PairAgrees(p: Pair)
    decreases p
  {
    KeysAgree(p.key) && KeysAgree(p.val)
  }

  lemma {:induction false} CanonItemsAt(items: seq<Value>)
    ensures forall i :: 0 <= i < |items| ==> CanonItems(items)[i] == Canon(items[i])
  {
    if items != [] { CanonItemsAt(items[1..]); }
  }

  lemma SortedAreSame(ps: seq<Pair>)
    ensures |SortPairs(ps)| == |ps| && forall p :: p in SortPairs(ps) <==> p in ps
  {
    var sp := SortPairs(ps);
    forall p ensures p in sp <==> p in ps {
      assert p in sp <==> p in multiset(sp);
      assert p in ps <==> p in multiset(ps);
    }
    assert |multiset(sp)| == |multiset(ps)|;
  }

  /** Sorting the maps of a value does not change what can be encoded. */
  lemma {:induction false} CanonStays(v: Value)
    requires WellFormed(v, DEFAULT)
    ensures WellFormed(Canon(v), DEFAULT)
    decreases v
  {
    match v
    case Array(items) =>
      CanonItemsAt(items);
      forall i | 0 <= i < |items| ensures WellFormed(Canon(items[i]), DEFAULT) { CanonStays(items[i]); }
    case Map(ps) =>
      forall i | 0 <= i < |ps| ensures WellFormedPair(CanonPair(ps[i]), DEFAULT) { PairStays(ps[i]); }
      CanonPairsStay(ps);
    case Tag(tag, inner) =>
      CanonStays(inner);
      assert Canon(inner).Bytes? ==> inner.Bytes? && Canon(inner) == inner;
    case _ =>
  }

  function CanonPair(p: Pair): (q: Pair)
  {
    Pair(Canon(p.key), Canon(p.val))
  }

  lemma {:induction false} PairStays(p: Pair)
    requires WellFormedPair(p, DEFAULT)
    ensures WellFormedPair(CanonPair(p), DEFAULT)
    decreases p
  {
    CanonStays(p.key);
    CanonStays(p.val);
  }

  lemma CanonPairsStay(ps: seq<Pair>)
    requires |ps| < U64_BOUND && forall i :: 0 <= i < |ps| ==> WellFormedPair(CanonPair(ps[i]), DEFAULT)
    ensures WellFormed(Canon(Map(ps)), DEFAULT)
  {
    CanonMapAt(ps);
    SortedAreSame(ps);
    var sp, r := SortPairs(ps), Canon(Map(ps)).pairs;
    forall k | 0 <= k < |r| ensures WellFormedPair(r[k], DEFAULT) {
      assert sp[k] in ps;
      assert r[k] == CanonPair(sp[k]);
    }
  }

  /** The entries of the canonical form are in order exactly when the keys are distinct and their order is kept. */
  lemma OrderIff(ps: seq<Pair>)
    requires WellFormedKeys(ps)
    ensures SortedKeys(Canon(Map(ps)).pairs) <==> DistinctKeys(ps) && OrderKept(ps)
  {
    CanonMapAt(ps);
    if DistinctKeys(ps) && OrderKept(ps) { KeptIsSorted(ps); }
    if SortedKeys(Canon(Map(ps)).pairs) { SortedIsKept(ps); }
  }

  lemma KeptIsSorted(ps: seq<Pair>)
    requires WellFormedKeys(ps) && DistinctKeys(ps) && OrderKept(ps)
    ensures SortedKeys(Canon(Map(ps)).pairs)
  {
    var sp, r := SortPairs(ps), Canon(Map(ps)).pairs;
    CanonMapAt(ps);
    SortedAreSame(ps);
    SortStrict(ps);
    forall i, j | 0 <= i < j < |r| ensures KeyLess(r[i].key, r[j].key) {
      assert sp[i] in ps && sp[j] in ps && KeyLess(sp[i].key, sp[j].key);
      var a :| 0 <= a < |ps| && ps[a] == sp[i];
      var b :| 0 <= b < |ps| && ps[b] == sp[j];
    }
  }

  lemma SortedIsKept(ps: seq<Pair>)
    requires SortedKeys(Canon(Map(ps)).pairs)
    ensures DistinctKeys(ps) && OrderKept(ps)
  {
    var sp, r := SortPairs(ps), Canon(Map(ps)).pairs;
    CanonMapAt(ps);
    assert DistinctKeys(ps) by {
      forall i, j | 0 <= i < j < |sp| ensures sp[i].key != sp[j].key { assert KeyLess(r[i].key, r[j].key); }
      RearrangedDistinct(sp, ps);
    }
    forall i, j | 0 <= i < |ps| && 0 <= j < |ps| && KeyLess(ps[i].key, ps[j].key)
      ensures KeyLess(Canon(ps[i].key), Canon(ps[j].key))
    {
      var a, b := SortedPlaces(ps, i, j);
      assert KeyLess(r[a].key, r[b].key);
    }
  }

  lemma PlacedBefore(sp: seq<Pair>, a: nat, b: nat)
    requires Ordered(sp) && a < |sp| && b < |sp| && KeyLess(sp[a].key, sp[b].key)
    ensures a < b
  {
    if b < a {
      OrderedAt(sp, b, a);
      KeyTotal(Encode(sp[a].key), Encode(sp[b].key));
    }
  }

  /** Where the sort puts two entries whose keys are in order. */
  lemma SortedPlaces(ps: seq<Pair>, i: nat, j: nat) returns (a: nat, b: nat)
    requires i < |ps| && j < |ps| && KeyLess(ps[i].key, ps[j].key)
    ensures a < b < |SortPairs(ps)| && SortPairs(ps)[a] == ps[i] && SortPairs(ps)[b] == ps[j]
  {
    var sp := SortPairs(ps);
    assert ps[i] in sp && ps[j] in sp by { SortedAreSame(ps); }
    a :| 0 <= a < |sp| && sp[a] == ps[i];
    b :| 0 <= b < |sp| && sp[b] == ps[j];
    SortOrdered(ps);
    PlacedBefore(sp, a, b);
  }

  /** The canonical form is what the canonical decoder demands exactly when the keys agree. */
  lemma {:induction false} CanonWellFormed(v: Value)
    requires WellFormed(v, DEFAULT)
    ensures WellFormed(Canon(v), CANONICAL) <==> KeysAgree(v)
    decreases v
  {
    match v
    case Array(items) =>
      CanonItemsAt(items);
      forall i | 0 <= i < |items| ensures WellFormed(Canon(items[i]), CANONICAL) <==> KeysAgree(items[i]) {
        CanonWellFormed(items[i]);
      }
      CanonArrayIff(items);
    case Map(ps) =>
      forall i | 0 <= i < |ps| ensures WellFormedPair(CanonPair(ps[i]), CANONICAL) <==> PairAgrees(ps[i]) {
        PairIff(ps[i]);
      }
      CanonMapIff(ps);
    case Tag(tag, inner) =>
      CanonWellFormed(inner);
      assert Canon(inner).Bytes? ==> inner.Bytes? && Canon(inner) == inner;
    case _ =>
  }

  lemma {:induction false} PairIff(p: Pair)
    requires WellFormedPair(p, DEFAULT)
    ensures WellFormedPair(CanonPair(p), CANONICAL) <==> PairAgrees(p)
    decreases p
  {
    CanonWellFormed(p.key);
    CanonWellFormed(p.val);
  }

  lemma CanonArrayIff(items: seq<Value>)
    requires |items| < U64_BOUND
    requires forall i :: 0 <= i < |items| ==> (WellFormed(Canon(items[i]), CANONICAL) <==> KeysAgree(items[i]))
    ensures WellFormed(Canon(Array(items)), CANONICAL) <==> KeysAgree(Array(items))
  {
    CanonItemsAt(items);
    var r := CanonItems(items);
    assert Canon(Array(items)) == Array(r);
    if WellFormed(Array(r), CANONICAL) {
      forall i | 0 <= i < |items| ensures KeysAgree(items[i]) { assert WellFormed(r[i], CANONICAL); }
    }
  }

  lemma CanonMapIff(ps: seq<Pair>)
    requires WellFormed(Map(ps), DEFAULT)
    requires forall i :: 0 <= i < |ps| ==> (WellFormedPair(CanonPair(ps[i]), CANONICAL) <==> PairAgrees(ps[i]))
    ensures WellFormed(Canon(Map(ps)), CANONICAL) <==> KeysAgree(Map(ps))
  {
    var r := Canon(Map(ps)).pairs;
    assert |r| == |ps| by { CanonMapAt(ps); }
    assert SortedKeys(r) <==> DistinctKeys(ps) && OrderKept(ps) by {
      forall i | 0 <= i < |ps| ensures WellFormed(ps[i].key, DEFAULT) { assert WellFormedPair(ps[i], DEFAULT); }
      OrderIff(ps);
    }
    EntriesIff(ps);
    SortedSuffices(r);
  }

  lemma SortedSuffices(r: seq<Pair>)
    requires |r| < U64_BOUND
    ensures WellFormed(Map(r), CANONICAL) <==> SortedKeys(r) && EntriesFit(r)
  {
    if SortedKeys(r) {
      forall i, j | 0 <= i < j < |r| ensures r[i].key != r[j].key { assert KeyLess(r[i].key, r[j].key); }
    }
  }

  /** Where the entry `i` of a map stands in its canonical form. */
  lemma CanonPlace(ps: seq<Pair>, i: nat) returns (k: nat)
    requires i < |ps|
    ensures k < |Canon(Map(ps)).pairs| && Canon(Map(ps)).pairs[k] == CanonPair(ps[i])
  {
    var sp := SortPairs(ps);
    CanonMapAt(ps);
    assert ps[i] in sp by { SortedAreSame(ps); }
    k :| 0 <= k < |sp| && sp[k] == ps[i];
  }

  /** Which entry of a map stands at `k` in its canonical form. */
  lemma CanonOrigin(ps: seq<Pair>, k: nat) returns (i: nat)
    requires k < |Canon(Map(ps)).pairs|
    ensures i < |ps| && Canon(Map(ps)).pairs[k] == CanonPair(ps[i])
  {
    var sp := SortPairs(ps);
    CanonMapAt(ps);
    assert sp[k] in ps by { SortedAreSame(ps); }
    i :| 0 <= i < |ps| && ps[i] == sp[k];
  }

  ghost predicate EntriesFit(r: seq<Pair>)
  {
    forall k :: 0 <= k < |r| ==> WellFormedPair(r[k], CANONICAL)
  }

  lemma EntriesIff(ps: seq<Pair>)
    requires forall i :: 0 <= i < |ps| ==> (WellFormedPair(CanonPair(ps[i]), CANONICAL) <==> PairAgrees(ps[i]))
    ensures EntriesFit(Canon(Map(ps)).pairs) <==> (forall i :: 0 <= i < |ps| ==> PairAgrees(ps[i]))
  {
    var r := Canon(Map(ps)).pairs;
    if EntriesFit(r) {
      forall i | 0 <= i < |ps| ensures PairAgrees(ps[i]) {
        var k := CanonPlace(ps, i);
        assert WellFormedPair(r[k], CANONICAL);
      }
    }
    if forall i :: 0 <= i < |ps| ==> PairAgrees(ps[i]) {
      forall k | 0 <= k < |r| ensures WellFormedPair(r[k], CANONICAL) {
        var i := CanonOrigin(ps, k);
        assert PairAgrees(ps[i]);
      }
      assert EntriesFit(r);
    }
  }

  // ----- keys without maps always agree -----

  ghost predicate HasMap(v: Value)
    decreases v
  {
    match v
    case Array(items) => exists i :: 0 <= i < |items| && HasMap(items[i])
    case Map(ps) => true
    case Tag(tag, inner) => HasMap(inner)
    case _ => false
  }

  /** Every map has distinct keys, none of which contains a map. */
  ghost predicate PlainKeys(v: Value)
    decreases v
  {
    match v
    case Array(items) => forall i :: 0 <= i < |items| ==> PlainKeys(items[i])
    case Map(ps) => DistinctKeys(ps) && forall i :: 0 <= i < |ps| ==> PlainPair(ps[i])
    case Tag(tag, inner) => PlainKeys(inner)
    case _ => true
  }

  ghost predicate PlainPair(p: Pair)
    decreases p
  {
    !HasMap(p.key) && PlainKeys(p.val)
  }

  lemma {:induction false} CanonWithoutMap(v: Value)
    requires !HasMap(v)
    ensures Canon(v) == v && KeysAgree(v)
    decreases v
  {
    match v
    case Array(items) =>
      forall i | 0 <= i < |items| ensures Canon(items[i]) == items[i] && KeysAgree(items[i]) {
        CanonWithoutMap(items[i]);
      }
      CanonItemsAt(items);
    case Tag(tag, inner) => CanonWithoutMap(inner);
    case _ =>
  }

  lemma {:induction false} PlainKeysAgree(v: Value)
    requires PlainKeys(v)
    ensures KeysAgree(v)
    decreases v
  {
    match v
    case Array(items) =>
      forall i | 0 <= i < |items| ensures KeysAgree(items[i]) { PlainKeysAgree(items[i]); }
    case Map(ps) =>
      forall i | 0 <= i < |ps| ensures Canon(ps[i].key) == ps[i].key && PairAgrees(ps[i]) { PlainPairAgrees(ps[i]); }
    case Tag(tag, inner) => PlainKeysAgree(inner);
    case _ =>
  }

  lemma {:induction false} PlainPairAgrees(p: Pair)
    requires PlainPair(p)
    ensures Canon(p.key) == p.key && PairAgrees(p)
    decreases p
  {
    CanonWithoutMap(p.key);
    PlainKeysAgree(p.val);
  }
}
