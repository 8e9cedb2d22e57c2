/** The buffer-writing encoder of tpt-cbor/src/value.rs, proved to append the specified bytes. */
module CborEncoder {
  import opened BigEndian
  import opened CborValue
  import opened Sequences

  /** What `encode_value` appends under the given option. */
  function Encoding(v: Value, canonical: bool): (r: seq<byte>)
  {
    if canonical then Encode(Canon(v)) else Encode(v)
  }

  lemma {:induction false} EncodeItemsSnoc(items: seq<Value>, i: nat)
    requires i < |items|
    ensures EncodeItems(items[..i + 1]) == EncodeItems(items[..i]) + Encode(items[i])
  {
    if i == 0 {
      assert items[..1] == [items[0]] && items[..1][1..] == [];
    } else {
      EncodeItemsSnoc(items[1..], i - 1);
      assert items[..i + 1][1..] == items[1..][..i];
      assert items[..i][1..] == items[1..][..i - 1];
      Joined(Encode(items[0]), EncodeItems(items[1..][..i - 1]), Encode(items[i]));
    }
  }

  lemma {:induction false} EncodePairsSnoc(ps: seq<Pair>, i: nat)
    requires i < |ps|
    ensures EncodePairs(ps[..i + 1]) == EncodePairs(ps[..i]) + EncodePair(ps[i])
  {
    if i == 0 {
      assert ps[..1] == [ps[0]] && ps[..1][1..] == [];
    } else {
      EncodePairsSnoc(ps[1..], i - 1);
      assert ps[..i + 1][1..] == ps[1..][..i];
      assert ps[..i][1..] == ps[1..][..i - 1];
      Joined(EncodePair(ps[0]), EncodePairs(ps[1..][..i - 1]), EncodePair(ps[i]));
    }
  }

  lemma {:induction false} CanonItemAt(items: seq<Value>, i: nat)
    requires i < |items|
    ensures CanonItems(items)[i] == Canon(items[i])
  {
    if i > 0 { CanonItemAt(items[1..], i - 1); }
  }

  lemma EncodingArray(items: seq<Value>, canonical: bool)
    ensures Encoding(Array(items), canonical)
         == Head(4, |items|) + EncodeItems(if canonical then CanonItems(items) else items)
  {}

  lemma EncodingMap(pairs: seq<Pair>, canonical: bool)
    ensures Encoding(Map(pairs), canonical)
         == Head(5, |pairs|) + EncodePairs(if canonical then Canon(Map(pairs)).pairs else pairs)
  {}

  lemma EncodingTag(tag: nat, inner: Value, canonical: bool)
    ensures Encoding(Tag(tag, inner), canonical) == Head(6, tag) + Encoding(inner, canonical)
  {}

  /** What is written for the entry at place `i`. */
  lemma EntryAt(pairs: seq<Pair>, order: seq<Pair>, canonical: bool, i: nat)
    requires order == (if canonical then SortPairs(pairs) else pairs) && i < |pairs|
    ensures order[i] in pairs
    ensures EncodePair((if canonical then Canon(Map(pairs)).pairs else pairs)[i])
         == EntryBytes(order[i], canonical)
  {}

  /** The bytes of the first `i` items. */
  ghost function ItemsUpTo(items: seq<Value>, canonical: bool, i: nat): (r: seq<byte>)
    requires i <= |items|
  {
    EncodeItems((if canonical then CanonItems(items) else items)[..i])
  }

  lemma ItemsUpToNext(items: seq<Value>, canonical: bool, i: nat)
    requires i < |items|
    ensures ItemsUpTo(items, canonical, i + 1) == ItemsUpTo(items, canonical, i) + Encoding(items[i], canonical)
  {
    EncodeItemsSnoc(if canonical then CanonItems(items) else items, i);
    CanonItemAt(items, i);
  }

  lemma ItemsUpToEnds(items: seq<Value>, canonical: bool)
    ensures ItemsUpTo(items, canonical, 0) == []
    ensures Encoding(Array(items), canonical) == Head(4, |items|) + ItemsUpTo(items, canonical, |items|)
  {
    var target := if canonical then CanonItems(items) else items;
    assert target[..0] == [] && target[..|items|] == target;
    EncodingArray(items, canonical);
  }

  /** The order in which the entries of a map are written. */
  function Order(pairs: seq<Pair>, canonical: bool): (r: seq<Pair>)
    ensures |r| == |pairs|
  {
    if canonical then SortPairs(pairs) else pairs
  }

  function EntryBytes(p: Pair, canonical: bool): (r: seq<byte>)
  {
    Encoding(p.key, canonical) + Encoding(p.val, canonical)
  }

  /** The bytes of the first `i` entries written. */
  ghost function PairsUpTo(pairs: seq<Pair>, canonical: bool, i: nat): (r: seq<byte>)
    requires i <= |pairs|
  {
    EncodePairs((if canonical then Canon(Map(pairs)).pairs else pairs)[..i])
  }

  lemma PairsUpToNext(pairs: seq<Pair>, canonical: bool, i: nat)
    requires i < |pairs|
    ensures Order(pairs, canonical)[i] in pairs
    ensures PairsUpTo(pairs, canonical, i + 1)
         == PairsUpTo(pairs, canonical, i) + EntryBytes(Order(pairs, canonical)[i], canonical)
  {
    EncodePairsSnoc(if canonical then Canon(Map(pairs)).pairs else pairs, i);
    EntryAt(pairs, Order(pairs, canonical), canonical, i);
  }

  lemma PairsUpToEnds(pairs: seq<Pair>, canonical: bool)
    ensures PairsUpTo(pairs, canonical, 0) == []
    ensures Encoding(Map(pairs), canonical) == Head(5, |pairs|) + PairsUpTo(pairs, canonical, |pairs|)
  {
    var target := if canonical then Canon(Map(pairs)).pairs else pairs;
    assert target[..0] == [] && target[..|pairs|] == target;
    EncodingMap(pairs, canonical);
  }

  lemma {:induction false} TrimBeSkips(b: seq<byte>, i: nat)
    requires i < |b| && forall k :: 0 <= k < i ==> b[k] == 0
    ensures TrimBe(b) == TrimBe(b[i..])
  {
    if i > 0 {
      TrimBeSkips(b[1..], i - 1);
      assert b[1..][i - 1..] == b[i..];
    }
  }

  /** `trim_be`: finds the first non-zero byte and keeps the bytes from there, at least one. */
  method TrimLeadingZeros(b: seq<byte>) returns (r: seq<byte>)
    requires |b| > 0
    ensures r == TrimBe(b)
  {
    var first := 0;
    while first < |b| && b[first] == 0
      invariant 0 <= first <= |b|
      invariant forall k :: 0 <= k < first ==> b[k] == 0
    {
      first := first + 1;
    }
    var keep := |b| - first;
    if keep < 1 { keep := 1; }
    TrimBeSkips(b, |b| - keep);
    r := b[|b| - keep..];
  }

  class Output {
    var out: seq<byte>

    constructor ()
      ensures out == []
    {
      out := [];
    }

    method Push(b: byte)
      modifies this
      ensures out == old(out) + [b]
    {
      out := out + [b];
    }

    method Extend(b: seq<byte>)
      modifies this
      ensures out == old(out) + b
    {
      out := out + b;
    }

    method WriteTypeNumber(major: nat, value: nat)
      requires major < 8
      modifies this
      ensures out == old(out) + Head(major, value)
    {
      var majorBits := 32 * major;
      if value < 24 {
        Push(majorBits + value);
      } else if value < 0x100 {
        Push(majorBits + 24);
        Push(value);
      } else if value < 0x1_0000 {
        Push(majorBits + 25);
        Extend(BeBytes(value, 2));
      } else if value < 0x1_0000_0000 {
        Push(majorBits + 26);
        Extend(BeBytes(value, 4));
      } else {
        Push(majorBits + 27);
        Extend(BeBytes(value, 8));
      }
    }

    method WriteBignum(tag: nat, n: nat)
      modifies this
      ensures out == old(out) + Bignum(tag, n)
    {
      var bytes := TrimLeadingZeros(BeBytes(n, 16));
      WriteTypeNumber(6, tag);
      WriteTypeNumber(2, |bytes|);
      Extend(bytes);
    }

    method WriteInteger(i: int)
      modifies this
      ensures out == old(out) + EncodeInteger(i)
    {
      if i >= 0 {
        if i < U64_BOUND {
          WriteTypeNumber(0, i);
          return;
        }
        WriteBignum(2, i);
        return;
      }
      if -i - 1 >= U64_BOUND {
        WriteBignum(3, -i - 1);
        return;
      }
      WriteTypeNumber(1, -i - 1);
    }

    method WriteSimple(b: byte)
      modifies this
      ensures out == old(out) + EncodeSimple(b)
    {
      if b <= 23 {
        Push(0xe0 + b);
      } else {
        Push(0xf8);
        Push(b);
      }
    }

    method WriteString(major: nat, b: seq<byte>)
      requires major < 8
      modifies this
      ensures out == old(out) + (Head(major, |b|) + b)
    {
      WriteTypeNumber(major, |b|);
      Extend(b);
    }

    method WriteValue(v: Value, canonical: bool)
      modifies this
      ensures out == old(out) + Encoding(v, canonical)
      decreases v, 1
    {
      match v
      case Integer(i) => WriteInteger(i);
      case Bool(b) => Push(if b then 0xf5 else 0xf4);
      case Null => Push(0xf6);
      case Undefined => Push(0xf7);
      case Simple(b) => WriteSimple(b);
      case Bytes(b) => WriteString(2, b);
      case Text(b) => WriteString(3, b);
      case Array(items) => WriteArray(items, canonical);
      case Map(pairs) => WriteMap(pairs, canonical);
      case Tag(tag, inner) => WriteTag(tag, inner, canonical);
    }

    method WriteArray(items: seq<Value>, canonical: bool)
      modifies this
      ensures out == old(out) + Encoding(Array(items), canonical)
      decreases items, 0
    {
      ItemsUpToEnds(items, canonical);
      WriteTypeNumber(4, |items|);
      ghost var start := out;
      for i := 0 to |items|
        invariant out == start + ItemsUpTo(items, canonical, i)
      {
        WriteValue(items[i], canonical);
        ItemsUpToNext(items, canonical, i);
        Joined(start, ItemsUpTo(items, canonical, i), Encoding(items[i], canonical));
      }
      Joined(old(out), Head(4, |items|), ItemsUpTo(items, canonical, |items|));
    }

    method WriteMap(pairs: seq<Pair>, canonical: bool)
      modifies this
      ensures out == old(out) + Encoding(Map(pairs), canonical)
      decreases pairs, 0
    {
      var order := Order(pairs, canonical);
      PairsUpToEnds(pairs, canonical);
      WriteTypeNumber(5, |pairs|);
      ghost var start := out;
      for i := 0 to |order|
        invariant out == start + PairsUpTo(pairs, canonical, i)
      {
        PairsUpToNext(pairs, canonical, i);
        WritePair(order[i], canonical);
        Joined(start, PairsUpTo(pairs, canonical, i), EntryBytes(order[i], canonical));
      }
      Joined(old(out), Head(5, |pairs|), PairsUpTo(pairs, canonical, |pairs|));
    }

    method WriteTag(tag: nat, inner: Value, canonical: bool)
      modifies this
      ensures out == old(out) + Encoding(Tag(tag, inner), canonical)
      decreases inner, 2
    {
      WriteTypeNumber(6, tag);
      WriteValue(inner, canonical);
      EncodingTag(tag, inner, canonical);
      Joined(old(out), Head(6, tag), Encoding(inner, canonical));
    }

    method WritePair(p: Pair, canonical: bool)
      modifies this
      ensures out == old(out) + EntryBytes(p, canonical)
      decreases p, 1
    {
      WriteValue(p.key, canonical);
      WriteValue(p.val, canonical);
      Joined(old(out), Encoding(p.key, canonical), Encoding(p.val, canonical));
    }
  }

  /** `encode_value_to_vec` */
  method EncodeToVec(v: Value, canonical: bool) returns (r: seq<byte>)
    ensures r == Encoding(v, canonical)
  {
    var buffer := new Output();
    buffer.WriteValue(v, canonical);
    r := buffer.out;
  }
}
