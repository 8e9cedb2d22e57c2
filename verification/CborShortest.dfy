/**
 Which byte strings the canonical decoder takes for a value. It checks the length of the head only for integers
 (tpt-cbor/src/decoder.rs:88-90), so it accepts more than canonical encodings; they are told apart exactly by the
 widths of the other heads and by what stands in bignums.
 */
module CborShortest {
  import opened BigEndian
  import opened CborValue
  import opened CborDecode
  import opened CborRoundTrip
  import opened CborCanonical
  import opened CborStrict
  import opened Sequences

  /** A bignum that has to be one: more than eight bytes, no leading zero, and below 2^127. */
  predicate NeededBignum(b: seq<byte>)
  {
    |b| > 8 && b[0] != 0 && (|b| == 16 ==> b[0] < 0x80)
  }

  predicate TightTag(tag: nat, inner: Value)
  {
    (tag == 2 || tag == 3) && inner.Bytes? && |inner.bytes| <= 16 ==> NeededBignum(inner.bytes)
  }

  /** Every head of the first item is as short as its number allows, and every bignum is needed. */
  ghost predicate Tight(s: seq<byte>)
    decreases |s|, 0
  {
    && Decode(s, CANONICAL).Ok?
    && (2 <= s[0] / 32 <= 6 ==> TightBody(s[0] / 32, ReadLen(2, s[0] % 32, s[1..]), s))
  }

  ghost predicate TightBody(major: nat, len: Parsed<Length>, s: seq<byte>)
    requires s != [] && (len.Ok? ==> |len.rest| < |s|)
    decreases |s|, 0, 0
  {
    && len.Ok? && len.value.Definite? && len.value.width == MinimalWidth(len.value.n)
    && (major == 4 ==> TightItems(len.value.n, len.rest))
    && (major == 5 ==> TightItems(2 * len.value.n, len.rest))
    && (major == 6 ==> Tight(len.rest) && TightTag(len.value.n, Decode(len.rest, CANONICAL).value))
  }

  /** So for `n` items one after another. */
  ghost predicate TightItems(n: nat, s: seq<byte>)
    decreases |s|, 1
  {
    n == 0 || (Tight(s) && TightItems(n - 1, Decode(s, CANONICAL).rest))
  }

  // ----- Heads -----

  lemma NumberIs(t: seq<byte>, w: nat, len: Parsed<Length>)
    requires len == ReadNumber(t, w) && len.Ok?
    ensures len.value.n < Pow256(w) && t == BeBytes(len.value.n, w) + len.rest
  {
    BeBytesVal(t[..w]);
    assert t == t[..w] + t[w..];
  }

  lemma HeadShape(major: nat, n: nat, ai: nat)
    requires major < 8 && 24 <= n < U64_BOUND
    requires ai == if n < 0x100 then 24 else if n < 0x1_0000 then 25 else if n < 0x1_0000_0000 then 26 else 27
    ensures Head(major, n) == [32 * major + ai] + BeBytes(n, MinimalWidth(n))
  {
    if n < 0x100 { assert BeBytes(n, 1) == [n] by { assert BeBytes(n / 256, 0) == []; } }
  }

  lemma WidthFits(ai: nat, t: seq<byte>, len: Parsed<Length>)
    requires 24 <= ai < 32 && len == ReadLen(2, ai, t) && len.Ok? && len.value.Definite?
    ensures ai <= 27 && len == ReadNumber(t, len.value.width) && len.value.n < U64_BOUND
    ensures len.value.width == if ai == 24 then 1 else if ai == 25 then 2 else if ai == 26 then 4 else 8
  {
    NumberIs(t, len.value.width, len);
    Pow256Values();
  }

  /** A head of the right width is the one the encoder writes. */
  lemma HeadIs(major: nat, ai: nat, t: seq<byte>, len: Parsed<Length>)
    requires major < 8 && ai < 32 && len == ReadLen(2, ai, t) && len.Ok? && len.value.Definite?
    requires len.value.width == MinimalWidth(len.value.n)
    ensures [32 * major + ai] + t == Head(major, len.value.n) + len.rest && len.value.n < U64_BOUND
  {
    if ai >= 24 {
      var n, w := len.value.n, len.value.width;
      WidthFits(ai, t, len);
      NumberIs(t, w, len);
      HeadShape(major, n, ai);
      Joined([32 * major + ai], BeBytes(n, w), len.rest);
    }
  }

  lemma LengthBound(ai: nat, t: seq<byte>, len: Parsed<Length>)
    requires ai < 32 && len == ReadLen(2, ai, t) && len.Ok? && len.value.Definite?
    ensures len.value.n < U64_BOUND
  {
    if ai >= 24 { WidthFits(ai, t, len); }
  }

  lemma SameLength(major: nat, ai: nat, t: seq<byte>)
    requires major < 8 && ai < 32
    ensures ReadLen(2, ai, t).Ok? <==> ReadLen(major, ai, t).Ok?
    ensures ReadLen(2, ai, t).Ok? ==> ReadLen(2, ai, t) == ReadLen(major, ai, t)
  {}

  // ----- What is decoded can be encoded -----

  lemma {:induction false} DecodedFits(s: seq<byte>)
    requires Decode(s, CANONICAL).Ok?
    ensures WellFormed(Decode(s, CANONICAL).value, DEFAULT)
    decreases |s|, 0
  {
    var major, ai, t := s[0] / 32, s[0] % 32, s[1..];
    SameLength(major, ai, t);
    if major <= 6 { LengthBound(ai, t, ReadLen(2, ai, t)); }
    var len := ReadLen(2, ai, t);
    if major == 4 {
      ItemsFit(len.value.n, len.rest, []);
    } else if major == 5 {
      PairsFit(len.value.n, len.rest, []);
    } else if major == 6 {
      DecodedFits(len.rest);
      TagFits(len.value.n, Decode(len.rest, CANONICAL).value);
    }
  }

  lemma TagFits(tag: nat, inner: Value)
    requires tag < U64_BOUND && WellFormed(inner, DEFAULT)
    ensures WellFormed(MakeTag(tag, inner), DEFAULT)
  {
    if (tag == 2 || tag == 3) && inner.Bytes? && |inner.bytes| <= 16 {
      BeBytesVal(inner.bytes);
      Pow256Values();
      Pow256Mono(|inner.bytes|, 16);
    }
  }

  ghost predicate ItemsWellFormed(items: seq<Value>)
  {
    forall i :: 0 <= i < |items| ==> WellFormed(items[i], DEFAULT)
  }

  lemma {:induction false} ItemsFit(n: nat, s: seq<byte>, acc: seq<Value>)
    requires DecodeItems(n, s, acc, CANONICAL).Ok? && ItemsWellFormed(acc)
    ensures |DecodeItems(n, s, acc, CANONICAL).value| == |acc| + n && ItemsWellFormed(DecodeItems(n, s, acc, CANONICAL).value)
    decreases |s|, 1
  {
    if n > 0 {
      var item := Decode(s, CANONICAL);
      DecodedFits(s);
      ItemsFit(n - 1, item.rest, acc + [item.value]);
    }
  }

  ghost predicate PairsWellFormed(ps: seq<Pair>)
  {
    forall i :: 0 <= i < |ps| ==> WellFormedPair(ps[i], DEFAULT)
  }

  lemma {:induction false} PairFits(s: seq<byte>, acc: seq<Pair>)
    requires DecodePair(s, acc, CANONICAL).Ok?
    ensures WellFormedPair(DecodePair(s, acc, CANONICAL).value, DEFAULT)
    decreases |s|, 1
  {
    DecodedFits(s);
    DecodedFits(Decode(s, CANONICAL).rest);
  }

  lemma {:induction false} PairsFit(n: nat, s: seq<byte>, acc: seq<Pair>)
    requires DecodePairs(n, s, acc, CANONICAL).Ok? && PairsWellFormed(acc)
    ensures |DecodePairs(n, s, acc, CANONICAL).value| == |acc| + n && PairsWellFormed(DecodePairs(n, s, acc, CANONICAL).value)
    decreases |s|, 2
  {
    if n > 0 {
      var p := DecodePair(s, acc, CANONICAL);
      PairFits(s, acc);
      PairsFit(n - 1, p.rest, acc + [p.value]);
    }
  }

  // ----- Tight bytes are encodings -----

  lemma {:induction false} TrimZeros(zeros: nat, b: seq<byte>)
    requires b != [] && b[0] != 0
    ensures TrimBe(seq(zeros, _ => 0) + b) == b
  {
    var z := seq(zeros, _ => 0);
    if zeros == 0 {
      assert z + b == b;
    } else {
      assert (z + b)[1..] == seq(zeros - 1, _ => 0) + b;
      TrimZeros(zeros - 1, b);
    }
  }

  lemma {:induction false} PaddedBytes(b: seq<byte>, zeros: nat)
    ensures BeBytes(BeVal(b), zeros + |b|) == seq(zeros, _ => 0) + b
  {
    if b == [] {
      ZeroBytes(zeros);
      assert seq(zeros, _ => 0) + b == seq(zeros, _ => 0);
    } else {
      var init, last := b[..|b| - 1], b[|b| - 1];
      PaddedBytes(init, zeros);
      assert b == init + [last];
      assert seq(zeros, _ => 0) + b == seq(zeros, _ => 0) + init + [last];
    }
  }

  lemma {:induction false} ZeroBytes(n: nat)
    ensures BeBytes(0, n) == seq(n, _ => 0)
  {
    if n > 0 { ZeroBytes(n - 1); }
  }

  lemma NeededIsBig(b: seq<byte>)
    requires |b| <= 16 && NeededBignum(b)
    ensures BeVal(b) >= U64_BOUND
  {
    var p := Pow256(|b| - 1);
    LeadingByte(b);
    Pow256Mono(8, |b| - 1);
    assert p >= U64_BOUND by { Pow256Values(); }
    AtLeast(b[0], p);
  }

  lemma NeededValue(b: seq<byte>)
    requires |b| <= 16 && NeededBignum(b)
    ensures BeVal(b) >= U64_BOUND && TrimBe(BeBytes(BeVal(b), 16)) == b
  {
    NeededIsBig(b);
    PaddedBytes(b, 16 - |b|);
    TrimZeros(16 - |b|, b);
  }

  /** A needed bignum is what the encoder makes of its number. */
  lemma NeededIs(tag: nat, b: seq<byte>)
    requires (tag == 2 || tag == 3) && |b| <= 16 && NeededBignum(b)
    ensures Encode(MakeTag(tag, Bytes(b))) == Head(6, tag) + (Head(2, |b|) + b)
  {
    assert Encode(MakeTag(tag, Bytes(b))) == Bignum(tag, BeVal(b)) by {
      BignumCollapse(tag, b);
      NeededValue(b);
    }
    NeededValue(b);
    Joined(Head(6, tag), Head(2, |b|), b);
  }

  lemma AtLeast(x: nat, p: nat)
    requires x >= 1
    ensures x * p >= p
  {
    assert (x - 1) * p >= 0;
    assert (x - 1) * p == x * p - p;
  }

  /** The bytes are the encoding of the item they are read as. */
  ghost predicate IsEncoding(s: seq<byte>)
  {
    var r := Decode(s, CANONICAL);
    r.Ok? && s == Encode(r.value) + r.rest
  }

  lemma {:induction false} TightIsEncoding(s: seq<byte>)
    requires Tight(s)
    ensures IsEncoding(s)
    decreases |s|, 4
  {
    var major, ai, t := s[0] / 32, s[0] % 32, s[1..];
    assert s == [32 * major + ai] + t;
    if major == 7 {
      TightSimple(ai, t);
    } else {
      SameLength(major, ai, t);
      var len := ReadLen(2, ai, t);
      HeadIs(major, ai, t, len);
      var n, body := len.value.n, len.rest;
      if major <= 1 {
        TightInteger(major, n, body);
      } else if major == 2 {
        TightBytes(n, body);
      } else if major == 3 {
        TightText(n, body);
      } else if major == 4 {
        TightArray(n, body, s);
      } else if major == 5 {
        TightMap(n, body, s);
      } else {
        TightTagged(n, body, s);
      }
    }
  }

  lemma TightInteger(major: nat, n: nat, t: seq<byte>)
    requires major <= 1 && n < U64_BOUND
    ensures IsEncoding(Head(major, n) + t)
  {
    DecodesInteger(major, n, t, CANONICAL);
  }

  lemma TightBytes(n: nat, t: seq<byte>)
    requires n < U64_BOUND && Decode(Head(2, n) + t, CANONICAL).Ok?
    ensures IsEncoding(Head(2, n) + t)
  {
    DecodesString(n, t, false, CANONICAL);
    CutAt(t, n);
    BytesIs(t[..n], t[n..], t);
  }

  lemma TightText(n: nat, t: seq<byte>)
    requires n < U64_BOUND && Decode(Head(3, n) + t, CANONICAL).Ok?
    ensures IsEncoding(Head(3, n) + t)
  {
    DecodesString(n, t, true, CANONICAL);
    CutAt(t, n);
    TextIs(t[..n], t[n..], t);
  }

  lemma CutAt(t: seq<byte>, n: nat)
    requires n <= |t|
    ensures t == t[..n] + t[n..]
  {}

  lemma BytesIs(b: seq<byte>, rest: seq<byte>, t: seq<byte>)
    requires |b| < U64_BOUND && t == b + rest
    ensures IsEncoding(Head(2, |b|) + t)
  {
    Joined(Head(2, |b|), b, rest);
    RoundTrip(Bytes(b), rest, CANONICAL);
    EncodingOf(Bytes(b), rest);
  }

  lemma TextIs(b: seq<byte>, rest: seq<byte>, t: seq<byte>)
    requires |b| < U64_BOUND && ValidUtf8(b) && t == b + rest
    ensures IsEncoding(Head(3, |b|) + t)
  {
    Joined(Head(3, |b|), b, rest);
    RoundTrip(Text(b), rest, CANONICAL);
    EncodingOf(Text(b), rest);
  }

  lemma EncodingOf(v: Value, rest: seq<byte>)
    requires Decode(Encode(v) + rest, CANONICAL) == Ok(v, rest)
    ensures IsEncoding(Encode(v) + rest)
  {}

  lemma {:induction false} TightArray(n: nat, t: seq<byte>, s: seq<byte>)
    requires n < U64_BOUND && s == Head(4, n) + t && |t| < |s| && Decode(s, CANONICAL).Ok? && TightItems(n, t)
    ensures IsEncoding(s)
    decreases |s|, 2
  {
    DecodesArray(n, t, CANONICAL);
    var items := DecodeItems(n, t, [], CANONICAL);
    TightItemsAre(n, t, [], items);
    assert items.value[0..] == items.value;
    Joined(Head(4, n), EncodeItems(items.value), items.rest);
  }

  lemma {:induction false} TightMap(n: nat, t: seq<byte>, s: seq<byte>)
    requires n < U64_BOUND && s == Head(5, n) + t && |t| < |s| && Decode(s, CANONICAL).Ok? && TightItems(2 * n, t)
    ensures IsEncoding(s)
    decreases |s|, 2
  {
    DecodesMap(n, t, CANONICAL);
    var ps := DecodePairs(n, t, [], CANONICAL);
    TightPairsAre(n, t, [], ps);
    assert ps.value[0..] == ps.value;
    Joined(Head(5, n), EncodePairs(ps.value), ps.rest);
  }

  lemma {:induction false} TightTagged(n: nat, t: seq<byte>, s: seq<byte>)
    requires n < U64_BOUND && s == Head(6, n) + t && |t| < |s| && Decode(s, CANONICAL).Ok?
    requires Tight(t) && TightTag(n, Decode(t, CANONICAL).value)
    ensures IsEncoding(s)
    decreases |s|, 2
  {
    DecodesTag(n, t, CANONICAL);
    var inner := Decode(t, CANONICAL);
    TightIsEncoding(t);
    Joined(Head(6, n), Encode(inner.value), inner.rest);
    TagIs(n, inner.value);
  }

  lemma TagIs(tag: nat, inner: Value)
    requires TightTag(tag, inner)
    ensures Encode(MakeTag(tag, inner)) == Head(6, tag) + Encode(inner)
  {
    if (tag == 2 || tag == 3) && inner.Bytes? && |inner.bytes| <= 16 { NeededIs(tag, inner.bytes); }
  }

  lemma TightSimple(ai: nat, t: seq<byte>)
    requires ai < 32 && DecodeSimple(ai, t).Ok?
    ensures [0xe0 + ai] + t == Encode(DecodeSimple(ai, t).value) + DecodeSimple(ai, t).rest
  {
    if ai == 24 { assert t == [t[0]] + t[1..]; }
  }

  /** The bytes are read as `n` more items, all tight. */
  ghost predicate ItemsRead(n: nat, s: seq<byte>, acc: seq<Value>, r: Parsed<seq<Value>>)
  {
    r == DecodeItems(n, s, acc, CANONICAL) && r.Ok? && TightItems(n, s)
  }

  lemma TightItemStep(n: nat, s: seq<byte>, acc: seq<Value>, item: Parsed<Value>, r: Parsed<seq<Value>>)
    requires n > 0 && ItemsRead(n, s, acc, r) && item == Decode(s, CANONICAL)
    ensures item.Ok? && Tight(s) && ItemsRead(n - 1, item.rest, acc + [item.value], r)
  {}

  /** The items `xs` continue `acc`, and the text is made of those after it. */
  predicate ItemsContinue(s: seq<byte>, acc: seq<Value>, xs: seq<Value>, rest: seq<byte>)
  {
    |acc| <= |xs| && xs[..|acc|] == acc && s == EncodeItems(xs[|acc|..]) + rest
  }

  lemma {:induction false} TightItemsAre(n: nat, s: seq<byte>, acc: seq<Value>, r: Parsed<seq<Value>>)
    requires ItemsRead(n, s, acc, r)
    ensures r.Ok? && |r.value| == |acc| + n && ItemsContinue(s, acc, r.value, r.rest)
    decreases |s|, 8
  {
    if n == 0 {
      assert acc[|acc|..] == [];
      Nothing(s);
    } else {
      MoreItemsAre(n, s, acc, Decode(s, CANONICAL), r);
    }
  }

  lemma {:induction false} MoreItemsAre(n: nat, s: seq<byte>, acc: seq<Value>, item: Parsed<Value>, r: Parsed<seq<Value>>)
    requires n > 0 && ItemsRead(n, s, acc, r) && item == Decode(s, CANONICAL)
    ensures r.Ok? && |r.value| == |acc| + n && ItemsContinue(s, acc, r.value, r.rest)
    decreases |s|, 7
  {
    TightItemStep(n, s, acc, item, r);
    TightItemsAre(n - 1, item.rest, acc + [item.value], r);
    TightIsEncoding(s);
    ItemBefore(s, acc, item.value, item.rest, r.value, r.rest);
  }

  lemma ItemBefore(s: seq<byte>, acc: seq<Value>, x: Value, t: seq<byte>, xs: seq<Value>, rest: seq<byte>)
    requires s == Encode(x) + t && ItemsContinue(t, acc + [x], xs, rest)
    ensures ItemsContinue(s, acc, xs, rest)
  {
    NextItem(xs, acc, x);
    Joined(Encode(x), EncodeItems(xs[|acc| + 1..]), rest);
  }

  lemma NextItem(items: seq<Value>, acc: seq<Value>, x: Value)
    requires |items| > |acc| && items[..|acc| + 1] == acc + [x]
    ensures items[..|acc|] == acc && EncodeItems(items[|acc|..]) == Encode(x) + EncodeItems(items[|acc| + 1..])
  {
    var tail := items[|acc|..];
    assert items[..|acc|] == items[..|acc| + 1][..|acc|];
    assert tail[0] == items[..|acc| + 1][|acc|] == x;
    assert tail[1..] == items[|acc| + 1..];
  }

  lemma NextPair(ps: seq<Pair>, acc: seq<Pair>, p: Pair)
    requires |ps| > |acc| && ps[..|acc| + 1] == acc + [p]
    ensures ps[..|acc|] == acc && EncodePairs(ps[|acc|..]) == EncodePair(p) + EncodePairs(ps[|acc| + 1..])
  {
    var tail := ps[|acc|..];
    assert ps[..|acc|] == ps[..|acc| + 1][..|acc|];
    assert tail[0] == ps[..|acc| + 1][|acc|] == p;
    assert tail[1..] == ps[|acc| + 1..];
  }

  lemma {:induction false} TightPairIs(s: seq<byte>, acc: seq<Pair>)
    requires Tight(s) && Tight(Decode(s, CANONICAL).rest) && DecodePair(s, acc, CANONICAL).Ok?
    ensures s == EncodePair(DecodePair(s, acc, CANONICAL).value) + DecodePair(s, acc, CANONICAL).rest
    decreases |s|, 5
  {
    var key := Decode(s, CANONICAL);
    var val := Decode(key.rest, CANONICAL);
    TightIsEncoding(s);
    TightIsEncoding(key.rest);
    Joined(Encode(key.value), Encode(val.value), val.rest);
  }

  /** The bytes are read as `n` more entries, made of tight items. */
  ghost predicate PairsRead(n: nat, s: seq<byte>, acc: seq<Pair>, r: Parsed<seq<Pair>>)
  {
    r == DecodePairs(n, s, acc, CANONICAL) && r.Ok? && TightItems(2 * n, s)
  }

  lemma TwoTight(m: nat, s: seq<byte>)
    requires m >= 2 && TightItems(m, s)
    ensures Tight(s) && Tight(Decode(s, CANONICAL).rest)
    ensures TightItems(m - 2, Decode(Decode(s, CANONICAL).rest, CANONICAL).rest)
  {
    assert TightItems(m - 1, Decode(s, CANONICAL).rest);
  }

  lemma TightPairStep(n: nat, s: seq<byte>, acc: seq<Pair>, p: Parsed<Pair>, r: Parsed<seq<Pair>>)
    requires n > 0 && PairsRead(n, s, acc, r) && p == DecodePair(s, acc, CANONICAL)
    ensures p.Ok? && Tight(s) && Tight(Decode(s, CANONICAL).rest) && PairsRead(n - 1, p.rest, acc + [p.value], r)
  {
    FirstPairRead(n, s, acc, p);
    TightPairRest(2 * n, 2 * (n - 1), s, acc, p);
    PairsStep(n, s, acc, CANONICAL, p.value, p.rest);
  }

  lemma TightPairRest(m: nat, k: nat, s: seq<byte>, acc: seq<Pair>, p: Parsed<Pair>)
    requires m == k + 2 && TightItems(m, s) && p == DecodePair(s, acc, CANONICAL) && p.Ok?
    ensures Tight(s) && Tight(Decode(s, CANONICAL).rest) && TightItems(k, p.rest)
  {
    PairRest(s, acc, p);
    TwoTight(m, s);
  }

  lemma FirstPairRead(n: nat, s: seq<byte>, acc: seq<Pair>, p: Parsed<Pair>)
    requires n > 0 && DecodePairs(n, s, acc, CANONICAL).Ok? && p == DecodePair(s, acc, CANONICAL)
    ensures p.Ok?
  {}

  lemma PairRest(s: seq<byte>, acc: seq<Pair>, p: Parsed<Pair>)
    requires p == DecodePair(s, acc, CANONICAL) && p.Ok?
    ensures Decode(s, CANONICAL).Ok? && Decode(Decode(s, CANONICAL).rest, CANONICAL).Ok?
    ensures p.rest == Decode(Decode(s, CANONICAL).rest, CANONICAL).rest
  {}

  /** The entries `ps` continue `acc`, and the text is made of those after it. */
  predicate Continues(s: seq<byte>, acc: seq<Pair>, ps: seq<Pair>, rest: seq<byte>)
  {
    |acc| <= |ps| && ps[..|acc|] == acc && s == EncodePairs(ps[|acc|..]) + rest
  }

  lemma {:induction false} TightPairsAre(n: nat, s: seq<byte>, acc: seq<Pair>, r: Parsed<seq<Pair>>)
    requires PairsRead(n, s, acc, r)
    ensures r.Ok? && |r.value| == |acc| + n && Continues(s, acc, r.value, r.rest)
    decreases |s|, 8
  {
    if n == 0 {
      assert acc[|acc|..] == [];
      Nothing(s);
    } else {
      MorePairsAre(n, s, acc, DecodePair(s, acc, CANONICAL), r);
    }
  }

  lemma {:induction false} MorePairsAre(n: nat, s: seq<byte>, acc: seq<Pair>, p: Parsed<Pair>, r: Parsed<seq<Pair>>)
    requires n > 0 && PairsRead(n, s, acc, r) && p == DecodePair(s, acc, CANONICAL)
    ensures r.Ok? && |r.value| == |acc| + n && Continues(s, acc, r.value, r.rest)
    decreases |s|, 7
  {
    TightPairStep(n, s, acc, p, r);
    TightPairsAre(n - 1, p.rest, acc + [p.value], r);
    PairDone(s, acc, p, r);
  }

  lemma {:induction false} PairDone(s: seq<byte>, acc: seq<Pair>, p: Parsed<Pair>, r: Parsed<seq<Pair>>)
    requires Tight(s) && Tight(Decode(s, CANONICAL).rest) && p == DecodePair(s, acc, CANONICAL) && p.Ok? && r.Ok?
    requires Continues(p.rest, acc + [p.value], r.value, r.rest)
    ensures Continues(s, acc, r.value, r.rest)
    decreases |s|, 6
  {
    TightPairIs(s, acc);
    PairBefore(s, acc, p.value, p.rest, r.value, r.rest);
  }

  lemma PairBefore(s: seq<byte>, acc: seq<Pair>, p: Pair, t: seq<byte>, ps: seq<Pair>, rest: seq<byte>)
    requires s == EncodePair(p) + t && Continues(t, acc + [p], ps, rest)
    ensures Continues(s, acc, ps, rest)
  {
    NextPair(ps, acc, p);
    Joined(EncodePair(p), EncodePairs(ps[|acc| + 1..]), rest);
  }

  // ----- Encodings are tight -----

  lemma HeadTight(major: nat, n: nat, rest: seq<byte>)
    requires 2 <= major <= 6 && n < U64_BOUND && Decode(Head(major, n) + rest, CANONICAL).Ok?
    requires major == 4 ==> TightItems(n, rest)
    requires major == 5 ==> TightItems(2 * n, rest)
    requires major == 6 ==> Tight(rest) && TightTag(n, Decode(rest, CANONICAL).value)
    ensures Tight(Head(major, n) + rest)
  {
    HeadParses(major, n, rest, 2);
  }

  lemma {:induction false} EncodingIsTight(v: Value, rest: seq<byte>)
    requires WellFormed(v, CANONICAL)
    ensures Tight(Encode(v) + rest)
    decreases v, 0
  {
    RoundTrip(v, rest, CANONICAL);
    match v
    case Bytes(b) =>
      Joined(Head(2, |b|), b, rest);
      HeadTight(2, |b|, b + rest);
    case Text(b) =>
      Joined(Head(3, |b|), b, rest);
      HeadTight(3, |b|, b + rest);
    case Array(items) =>
      Joined(Head(4, |items|), EncodeItems(items), rest);
      ItemsAreTight(items, rest);
      HeadTight(4, |items|, EncodeItems(items) + rest);
    case Map(ps) =>
      Joined(Head(5, |ps|), EncodePairs(ps), rest);
      PairsAreTight(ps, rest);
      HeadTight(5, |ps|, EncodePairs(ps) + rest);
    case Tag(tag, inner) =>
      Joined(Head(6, tag), Encode(inner), rest);
      EncodingIsTight(inner, rest);
      RoundTrip(inner, rest, CANONICAL);
      HeadTight(6, tag, Encode(inner) + rest);
    case Integer(i) => IntegerIsTight(i, rest);
    case _ =>
  }

  lemma SmallIsTight(major: nat, n: nat, rest: seq<byte>)
    requires major <= 1 && n < U64_BOUND
    ensures Tight(Head(major, n) + rest)
  {
    DecodesInteger(major, n, rest, CANONICAL);
    HeadParses(major, n, rest, major);
  }

  lemma IntegerIsTight(i: int, rest: seq<byte>)
    requires -I128_BOUND <= i < I128_BOUND
    ensures Tight(EncodeInteger(i) + rest)
  {
    if i >= U64_BOUND {
      BignumIsTight(2, i, rest);
    } else if -i - 1 >= U64_BOUND {
      BignumIsTight(3, -i - 1, rest);
    } else if i >= 0 {
      SmallIsTight(0, i, rest);
    } else {
      SmallIsTight(1, -i - 1, rest);
    }
  }

  lemma {:induction false} TrimLeads(b: seq<byte>)
    ensures |TrimBe(b)| > 1 ==> TrimBe(b)[0] != 0
  {
    if |b| > 1 && b[0] == 0 { TrimLeads(b[1..]); }
  }

  lemma BignumIsNeeded(n: nat)
    requires U64_BOUND <= n < I128_BOUND
    ensures NeededBignum(TrimBe(BeBytes(n, 16))) && |TrimBe(BeBytes(n, 16))| <= 16
  {
    var b := TrimBe(BeBytes(n, 16));
    Pow256Values();
    BignumContent(n);
    BeValBytes(n, 16);
    TrimBeKeepsValue(BeBytes(n, 16));
    BeBytesVal(b);
    if |b| <= 8 { Pow256Mono(|b|, 8); }
    TrimLeads(BeBytes(n, 16));
    BignumCollapse(2, b);
  }

  lemma BignumIsTight(tag: nat, n: nat, rest: seq<byte>)
    requires (tag == 2 || tag == 3) && U64_BOUND <= n < I128_BOUND
    ensures Tight(Bignum(tag, n) + rest)
  {
    var b := TrimBe(BeBytes(n, 16));
    BignumIsNeeded(n);
    BytesAreTight(b, rest);
    BignumRoundTrip(tag, n, rest, CANONICAL);
    var body := (Head(2, |b|) + b) + rest;
    assert Bignum(tag, n) + rest == Head(6, tag) + body by {
      Joined(Head(6, tag), Head(2, |b|), b);
      Joined(Head(6, tag), Head(2, |b|) + b, rest);
    }
    HeadTight(6, tag, body);
  }

  lemma BytesAreTight(b: seq<byte>, rest: seq<byte>)
    requires |b| < U64_BOUND
    ensures Tight((Head(2, |b|) + b) + rest) && Decode((Head(2, |b|) + b) + rest, CANONICAL) == Ok(Bytes(b), rest)
  {
    StringRoundTrip(b, false, rest, CANONICAL);
    Joined(Head(2, |b|), b, rest);
    HeadTight(2, |b|, b + rest);
  }

  lemma OneItem(n: nat, s: seq<byte>, t: seq<byte>)
    requires n > 0 && Tight(s) && Decode(s, CANONICAL).rest == t && TightItems(n - 1, t)
    ensures TightItems(n, s)
  {}

  lemma {:induction false} ItemLeads(n: nat, v: Value, tail: seq<byte>)
    requires n >= 1 && WellFormed(v, CANONICAL) && TightItems(n - 1, tail)
    ensures TightItems(n, Encode(v) + tail)
    decreases v, 1
  {
    EncodingIsTight(v, tail);
    RoundTrip(v, tail, CANONICAL);
    OneItem(n, Encode(v) + tail, tail);
  }

  lemma {:induction false} ItemsAreTight(items: seq<Value>, rest: seq<byte>)
    requires forall i :: 0 <= i < |items| ==> WellFormed(items[i], CANONICAL)
    ensures TightItems(|items|, EncodeItems(items) + rest)
    decreases items
  {
    if items != [] {
      var tail := EncodeItems(items[1..]) + rest;
      ItemsAreTight(items[1..], rest);
      ItemLeads(|items|, items[0], tail);
      assert EncodeItems(items) + rest == Encode(items[0]) + tail by { ItemsHead(items, rest); }
    }
  }

  lemma {:induction false} PairLeads(n: nat, p: Pair, tail: seq<byte>)
    requires n >= 2 && WellFormedPair(p, CANONICAL) && TightItems(n - 2, tail)
    ensures TightItems(n, EncodePair(p) + tail)
    decreases p
  {
    var t := Encode(p.val) + tail;
    EncodingIsTight(p.val, tail);
    RoundTrip(p.val, tail, CANONICAL);
    OneItem(n - 1, t, tail);
    EncodingIsTight(p.key, t);
    RoundTrip(p.key, t, CANONICAL);
    OneItem(n, Encode(p.key) + t, t);
    Joined(Encode(p.key), Encode(p.val), tail);
  }

  lemma {:induction false} PairsAreTight(ps: seq<Pair>, rest: seq<byte>)
    requires forall i :: 0 <= i < |ps| ==> WellFormedPair(ps[i], CANONICAL)
    ensures TightItems(2 * |ps|, EncodePairs(ps) + rest)
    decreases ps
  {
    if ps != [] {
      var tail := EncodePairs(ps[1..]) + rest;
      PairsAreTight(ps[1..], rest);
      PairLeads(2 * |ps|, ps[0], tail);
      assert EncodePairs(ps) + rest == EncodePair(ps[0]) + tail by { PairsHead(ps, rest); }
    }
  }

  // ----- The result -----

  /** What the canonical decoder accepts is the encoding of what it returns if and only if it is tight. */
  lemma ShortestIff(s: seq<byte>)
    requires Decode(s, CANONICAL).Ok?
    ensures IsEncoding(s) <==> Tight(s)
  {
    var r := Decode(s, CANONICAL);
    if Tight(s) { TightIsEncoding(s); }
    if IsEncoding(s) {
      DecodedFits(s);
      DecodeAgrees(s, CANONICAL);
      WellFormedSplits(r.value, CANONICAL);
      EncodingIsTight(r.value, r.rest);
    }
  }

  /** Two texts that are accepted as the same value are the same, if both are tight. */
  lemma TightUnique(s: seq<byte>, t: seq<byte>, v: Value)
    requires DecodeAll(s, CANONICAL) == Ok(v, []) && DecodeAll(t, CANONICAL) == Ok(v, []) && Tight(s) && Tight(t)
    ensures s == t
  {
    ShortestIff(s);
    ShortestIff(t);
  }

  /** An empty byte string with a long head is accepted, too. */
  lemma LongHeadAccepted(s: seq<byte>)
    requires s == [0x58, 0]
    ensures DecodeAll(s, CANONICAL) == Ok(Bytes([]), []) && Encode(Bytes([])) == [0x40] != s && !Tight(s)
  {
    assert s[1..] == [0] && [0][..1] == [0] && [0][1..] == [];
    assert BeVal([0]) == 0;
    ShortestIff(s);
    assert Encode(Bytes([])) + [] == [0x40];
  }
}
