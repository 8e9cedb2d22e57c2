/**
 The cursor decoder of tpt-cbor/src/decoder.rs. Every method moves `pos` and is proved to return, and to
 leave unread, what the functions of CborDecode say of the bytes that were unread before the call.
 */
module CborDecoder {
  import opened BigEndian
  import opened CborValue
  import opened CborDecode
  import opened Wrappers

  function ReadByte(s: seq<byte>): (r: Parsed<byte>)
  {
    if s == [] then Err(UnexpectedEof) else Ok(s[0], s[1..])
  }

  /** A big-endian number grows at its low end. */
  lemma {:induction false} BeValSnoc(b: seq<byte>, i: nat)
    requires i < |b|
    ensures BeVal(b[..i + 1]) == 256 * BeVal(b[..i]) + b[i]
  {
    var c := b[..i + 1];
    assert c[..|c| - 1] == b[..i];
  }

  /** The number of a byte string, accumulated byte by byte. */
  method Accumulate(b: seq<byte>) returns (v: nat)
    ensures v == BeVal(b)
  {
    v := 0;
    for i := 0 to |b|
      invariant v == BeVal(b[..i])
    {
      BeValSnoc(b, i);
      v := 256 * v + b[i];
    }
    assert b[..|b|] == b;
  }

  class Decoder {
    const data: seq<byte>
    const opts: Options
    var pos: nat

    ghost predicate Valid()
      reads this
    {
      pos <= |data|
    }

    ghost function Unread(): (s: seq<byte>)
      requires Valid()
      reads this
    {
      data[pos..]
    }

    /** The outcome and the new position are those of `p`. */
    ghost predicate Agrees<T(!new)>(r: Result<T, Error>, p: Parsed<T>)
      reads this
    {
      && Valid()
      && match p {
         case Ok(v, rest) => r == Success(v) && Unread() == rest
         case Err(e) => r == Failure(e)
         }
    }

    constructor (data: seq<byte>, opts: Options)
      ensures this.data == data && this.opts == opts && pos == 0
    {
      this.data := data;
      this.opts := opts;
      this.pos := 0;
    }

    method ReadU8() returns (r: Result<byte, Error>)
      requires Valid()
      modifies this
      ensures Agrees(r, ReadByte(old(Unread())))
    {
      if pos >= |data| { return Failure(UnexpectedEof); }
      r := Success(data[pos]);
      pos := pos + 1;
    }

    method Take(n: nat) returns (r: Result<seq<byte>, Error>)
      requires Valid()
      modifies this
      ensures Agrees(r, ReadExact(old(Unread()), n))
    {
      if |data| - pos < n { return Failure(UnexpectedEof); }
      assert data[pos..pos + n] == data[pos..][..n];
      r := Success(data[pos..pos + n]);
      pos := pos + n;
    }

    method TakeNumber(width: nat) returns (r: Result<Length, Error>)
      requires Valid()
      modifies this
      ensures Agrees(r, ReadNumber(old(Unread()), width))
    {
      var b := Take(width);
      if b.Failure? { return Failure(b.error); }
      var v := Accumulate(b.value);
      r := Success(Definite(v, width));
    }

    method TakeLen(major: nat, ai: nat) returns (r: Result<Length, Error>)
      requires Valid() && major < 8 && ai < 32
      modifies this
      ensures Agrees(r, ReadLen(major, ai, old(Unread())))
    {
      if ai <= 23 { return Success(Definite(ai, 0)); }
      if ai == 24 { r := TakeNumber(1); return; }
      if ai == 25 { r := TakeNumber(2); return; }
      if ai == 26 { r := TakeNumber(4); return; }
      if ai == 27 { r := TakeNumber(8); return; }
      if ai <= 30 { return Failure(InvalidInitialByte(32 * major + ai)); }
      return Success(Indefinite);
    }

    method IntegerValue(major: nat, ai: nat) returns (r: Result<Value, Error>)
      requires Valid() && major < 2 && ai < 32
      modifies this
      ensures Agrees(r, DecodeInteger(major, ai, old(Unread()), opts))
    {
      var len := TakeLen(major, ai);
      if len.Failure? { return Failure(len.error); }
      if len.value.Indefinite? { return Failure(InvalidInitialByte(32 * major + ai)); }
      if opts.canonical && len.value.width != MinimalWidth(len.value.n) { return Failure(InvalidInitialByte(0)); }
      return Success(Integer(if major == 0 then len.value.n else -1 - len.value.n));
    }

    method StringOf(b: seq<byte>, isText: bool) returns (r: Result<Value, Error>)
      requires Valid()
      ensures Agrees(r, MakeString(b, isText, Unread()))
    {
      if !isText { return Success(Bytes(b)); }
      if ValidUtf8(b) { return Success(Text(b)); }
      return Failure(InvalidUtf8);
    }

    method StringValue(ai: nat, isText: bool) returns (r: Result<Value, Error>)
      requires Valid() && ai < 32
      modifies this
      ensures Agrees(r, DecodeString(ai, old(Unread()), isText, opts))
    {
      var len := TakeLen(2, ai);
      if len.Failure? { return Failure(len.error); }
      var b;
      if len.value.Definite? {
        b := Take(len.value.n);
      } else {
        if opts.rejectIndefinite { return Failure(IndefiniteNotAllowed); }
        b := Chunks(isText);
      }
      if b.Failure? { return Failure(b.error); }
      r := StringOf(b.value, isText);
    }

    method Chunks(isText: bool) returns (r: Result<seq<byte>, Error>)
      requires Valid()
      modifies this
      ensures Agrees(r, DecodeChunks(old(Unread()), isText, []))
    {
      var acc: seq<byte> := [];
      while true
        invariant Valid()
        invariant DecodeChunks(Unread(), isText, acc) == old(DecodeChunks(Unread(), isText, []))
        decreases |data| - pos
      {
        var b := ReadU8();
        if b.Failure? { return Failure(b.error); }
        if b.value == 0xff { return Success(acc); }
        if b.value / 32 != (if isText then 3 else 2) { return Failure(InvalidInitialByte(b.value)); }
        var len := TakeLen(b.value / 32, b.value % 32);
        if len.Failure? { return Failure(len.error); }
        if len.value.Indefinite? { return Failure(InvalidInitialByte(b.value)); }
        var chunk := Take(len.value.n);
        if chunk.Failure? { return Failure(chunk.error); }
        acc := acc + chunk.value;
      }
    }

    method SimpleValue(ai: nat) returns (r: Result<Value, Error>)
      requires Valid() && ai < 32
      modifies this
      ensures Agrees(r, DecodeSimple(ai, old(Unread())))
    {
      if ai <= 19 { return Success(Simple(ai)); }
      if ai == 20 { return Success(Bool(false)); }
      if ai == 21 { return Success(Bool(true)); }
      if ai == 22 { return Success(Null); }
      if ai == 23 { return Success(Undefined); }
      if ai == 24 {
        var b := ReadU8();
        if b.Failure? { return Failure(b.error); }
        if b.value <= 31 { return Failure(ReservedSimpleValue(b.value)); }
        return Success(Simple(b.value));
      }
      if ai <= 27 {
        var b := Take(if ai == 25 then 2 else if ai == 26 then 4 else 8);
        if b.Failure? { return Failure(b.error); }
        return Failure(FloatNotModelled);
      }
      if ai == 31 { return Failure(InvalidInitialByte(0xff)); }
      return Failure(InvalidInitialByte(0xe0 + ai));
    }

    /** `decode_value` */
    method NextValue() returns (r: Result<Value, Error>)
      requires Valid()
      modifies this
      ensures Agrees(r, Decode(old(Unread()), opts))
      decreases |data| - pos, 0
    {
      var b := ReadU8();
      if b.Failure? { return Failure(b.error); }
      var major, ai := b.value / 32, b.value % 32;
      if major <= 1 { r := IntegerValue(major, ai); }
      else if major == 2 { r := StringValue(ai, false); }
      else if major == 3 { r := StringValue(ai, true); }
      else if major == 4 { r := ArrayValue(ai); }
      else if major == 5 { r := MapValue(ai); }
      else if major == 6 { r := TagValue(ai); }
      else { r := SimpleValue(ai); }
    }

    method ArrayValue(ai: nat) returns (r: Result<Value, Error>)
      requires Valid() && ai < 32
      modifies this
      ensures Agrees(r, DecodeArray(ai, old(Unread()), opts))
      decreases |data| - pos, 3
    {
      var len := TakeLen(4, ai);
      if len.Failure? { return Failure(len.error); }
      var items;
      if len.value.Definite? {
        items := Items(len.value.n);
      } else {
        if opts.rejectIndefinite { return Failure(IndefiniteNotAllowed); }
        items := ItemsUntilBreak();
      }
      if items.Failure? { return Failure(items.error); }
      return Success(Array(items.value));
    }

    method Items(n: nat) returns (r: Result<seq<Value>, Error>)
      requires Valid()
      modifies this
      ensures Agrees(r, DecodeItems(n, old(Unread()), [], opts))
      decreases |data| - pos, 1
    {
      var items: seq<Value> := [];
      for i := 0 to n
        invariant Valid() && pos >= old(pos)
        invariant DecodeItems(n - i, Unread(), items, opts) == old(DecodeItems(n, Unread(), [], opts))
      {
        var item := NextValue();
        if item.Failure? { return Failure(item.error); }
        items := items + [item.value];
      }
      return Success(items);
    }

    method ItemsUntilBreak() returns (r: Result<seq<Value>, Error>)
      requires Valid()
      modifies this
      ensures Agrees(r, DecodeItemsUntilBreak(old(Unread()), [], opts))
      decreases |data| - pos, 1
    {
      var items: seq<Value> := [];
      while true
        invariant Valid() && pos >= old(pos)
        invariant DecodeItemsUntilBreak(Unread(), items, opts) == old(DecodeItemsUntilBreak(Unread(), [], opts))
        decreases |data| - pos
      {
        if pos == |data| { return Failure(UnexpectedEof); }
        if data[pos] == 0xff {
          pos := pos + 1;
          return Success(items);
        }
        var item := NextValue();
        if item.Failure? { return Failure(item.error); }
        items := items + [item.value];
      }
    }

    method MapValue(ai: nat) returns (r: Result<Value, Error>)
      requires Valid() && ai < 32
      modifies this
      ensures Agrees(r, DecodeMap(ai, old(Unread()), opts))
      decreases |data| - pos, 3
    {
      var len := TakeLen(5, ai);
      if len.Failure? { return Failure(len.error); }
      var pairs;
      if len.value.Definite? {
        pairs := MapBody(len.value.n, false);
      } else {
        if opts.rejectIndefinite { return Failure(IndefiniteNotAllowed); }
        pairs := MapBody(0, true);
      }
      if pairs.Failure? { return Failure(pairs.error); }
      return Success(Map(pairs.value));
    }

    /** One key and value, with the duplicate and order checks against the pairs already read. */
    method NextPair(pairs: seq<Pair>) returns (r: Result<Pair, Error>)
      requires Valid()
      modifies this
      ensures Agrees(r, DecodePair(old(Unread()), pairs, opts))
      decreases |data| - pos, 1
    {
      var key := NextValue();
      if key.Failure? { return Failure(key.error); }
      var val := NextValue();
      if val.Failure? { return Failure(val.error); }
      if (opts.rejectDuplicateKeys || opts.canonical) && HasKey(pairs, key.value) { return Failure(DuplicateKey); }
      if opts.canonical && pairs != [] && !KeyLess(pairs[|pairs| - 1].key, key.value) { return Failure(DuplicateKey); }
      return Success(Pair(key.value, val.value));
    }

    /** Both loops of `decode_map_body`: until `n` pairs are read, or until the break byte. */
    method MapBody(n: nat, indefinite: bool) returns (r: Result<seq<Pair>, Error>)
      requires Valid()
      modifies this
      ensures Agrees(r, if indefinite then DecodePairsUntilBreak(old(Unread()), [], opts)
                        else DecodePairs(n, old(Unread()), [], opts))
      decreases |data| - pos, 2
    {
      var pairs: seq<Pair> := [];
      var count := 0;
      while true
        invariant Valid() && pos >= old(pos)
        invariant !indefinite ==>
          count <= n && DecodePairs(n - count, Unread(), pairs, opts) == old(DecodePairs(n, Unread(), [], opts))
        invariant indefinite ==>
          DecodePairsUntilBreak(Unread(), pairs, opts) == old(DecodePairsUntilBreak(Unread(), [], opts))
        decreases |data| - pos
      {
        if indefinite {
          if pos == |data| { return Failure(UnexpectedEof); }
          if data[pos] == 0xff {
            pos := pos + 1;
            return Success(pairs);
          }
        } else if count >= n {
          return Success(pairs);
        }
        var p := NextPair(pairs);
        if p.Failure? { return Failure(p.error); }
        pairs := pairs + [p.value];
        count := count + 1;
      }
    }

    method TagValue(ai: nat) returns (r: Result<Value, Error>)
      requires Valid() && ai < 32
      modifies this
      ensures Agrees(r, DecodeTag(ai, old(Unread()), opts))
      decreases |data| - pos, 3
    {
      var len := TakeLen(6, ai);
      if len.Failure? { return Failure(len.error); }
      if len.value.Indefinite? { return Failure(InvalidInitialByte(192 + ai)); }
      var inner := NextValue();
      if inner.Failure? { return Failure(inner.error); }
      return Success(MakeTag(len.value.n, inner.value));
    }
  }

  /** `decode_value`: the first item, and in canonical mode nothing after it. */
  method DecodeData(data: seq<byte>, opts: Options) returns (r: Result<Value, Error>)
    ensures match DecodeAll(data, opts) {
            case Ok(v, _) => r == Success(v)
            case Err(e) => r == Failure(e)
            }
  {
    var d := new Decoder(data, opts);
    assert d.Unread() == data;
    r := d.NextValue();
    if r.Success? && opts.canonical && d.pos < |data| { r := Failure(InvalidInitialByte(0)); }
  }
}
