/**
 What the CBOR decoder accepts and returns (tpt-cbor/src/decoder.rs), as functions from the unread
 bytes to a value and the bytes left over.
 */
module CborDecode {
  import opened BigEndian
  import opened CborValue

  datatype Options = Options(rejectIndefinite: bool, rejectDuplicateKeys: bool, canonical: bool)

  datatype Error =
    | UnexpectedEof
    | InvalidInitialByte(b: byte)
    | InvalidUtf8
    | IndefiniteNotAllowed
    | DuplicateKey
    | ReservedSimpleValue(v: byte)
    | FloatNotModelled

  /** A result and the bytes after it, or an error. */
  datatype Parsed<+T> = Ok(value: T, rest: seq<byte>) | Err(error: Error)

  /** The content of a length field, or the indefinite-length marker. */
  datatype Length = Definite(n: nat, width: nat) | Indefinite

  function ReadExact(s: seq<byte>, n: nat): (r: Parsed<seq<byte>>)
    ensures r.Ok? ==> |r.rest| + n <= |s|
  {
    if |s| < n then Err(UnexpectedEof) else Ok(s[..n], s[n..])
  }

  function ReadNumber(s: seq<byte>, width: nat): (r: Parsed<Length>)
    ensures r.Ok? ==> |r.rest| + width <= |s|
  {
    var b := ReadExact(s, width);
    if b.Err? then Err(b.error) else Ok(Definite(BeVal(b.value), width), b.rest)
  }

  function ReadLen(major: nat, ai: nat, s: seq<byte>): (r: Parsed<Length>)
    requires major < 8 && ai < 32
    ensures r.Ok? ==> |r.rest| <= |s|
  {
    if ai <= 23 then Ok(Definite(ai, 0), s)
    else if ai == 24 then ReadNumber(s, 1)
    else if ai == 25 then ReadNumber(s, 2)
    else if ai == 26 then ReadNumber(s, 4)
    else if ai == 27 then ReadNumber(s, 8)
    else if ai <= 30 then Err(InvalidInitialByte(32 * major + ai))
    else Ok(Indefinite, s)
  }

  /** The width a number needs. */
  function MinimalWidth(n: nat): (w: nat)
  {
    if n < 24 then 0 else if n <= 0xff then 1 else if n <= 0xffff then 2 else if n <= 0xffff_ffff then 4 else 8
  }

  /** `i128::from_be_bytes` of a string of at most 16 bytes, padded with zeros on the left. */
  function BignumMagnitude(b: seq<byte>): (m: int)
    requires |b| <= 16
  {
    var m := BeVal(b);
    if m < I128_BOUND then m else m - 2 * I128_BOUND
  }

  function MakeTag(tag: nat, inner: Value): (v: Value)
  {
    if (tag == 2 || tag == 3) && inner.Bytes? && |inner.bytes| <= 16 then
      var m := BignumMagnitude(inner.bytes);
      Integer(if tag == 2 then m else -1 - m)
    else Tag(tag, inner)
  }

  function MakeString(b: seq<byte>, isText: bool, rest: seq<byte>): (r: Parsed<Value>)
  {
    if !isText then Ok(Bytes(b), rest)
    else if ValidUtf8(b) then Ok(Text(b), rest)
    else Err(InvalidUtf8)
  }

  function DecodeSimple(ai: nat, s: seq<byte>): (r: Parsed<Value>)
    requires ai < 32
    ensures r.Ok? ==> |r.rest| <= |s|
  {
    if ai <= 19 then Ok(Simple(ai), s)
    else if ai == 20 then Ok(Bool(false), s)
    else if ai == 21 then Ok(Bool(true), s)
    else if ai == 22 then Ok(Null, s)
    else if ai == 23 then Ok(Undefined, s)
    else if ai == 24 then
      if s == [] then Err(UnexpectedEof)
      else if s[0] <= 31 then Err(ReservedSimpleValue(s[0]))
      else Ok(Simple(s[0]), s[1..])
    else if ai == 25 then if |s| < 2 then Err(UnexpectedEof) else Err(FloatNotModelled)
    else if ai == 26 then if |s| < 4 then Err(UnexpectedEof) else Err(FloatNotModelled)
    else if ai == 27 then if |s| < 8 then Err(UnexpectedEof) else Err(FloatNotModelled)
    else if ai == 31 then Err(InvalidInitialByte(0xff))
    else Err(InvalidInitialByte(0xe0 + ai))
  }

  /** The chunks of an indefinite-length string, after `acc`. */
  function DecodeChunks(s: seq<byte>, isText: bool, acc: seq<byte>): (r: Parsed<seq<byte>>)
    ensures r.Ok? ==> |r.rest| + 1 <= |s|
    decreases |s|
  {
    if s == [] then Err(UnexpectedEof)
    else if s[0] == 0xff then Ok(acc, s[1..])
    else if s[0] / 32 != (if isText then 3 else 2) then Err(InvalidInitialByte(s[0]))
    else
      var len := ReadLen(s[0] / 32, s[0] % 32, s[1..]);
      if len.Err? then Err(len.error)
      else if len.value.Indefinite? then Err(InvalidInitialByte(s[0]))
      else
        var b := ReadExact(len.rest, len.value.n);
        if b.Err? then Err(b.error) else DecodeChunks(b.rest, isText, acc + b.value)
  }

  function DecodeString(ai: nat, s: seq<byte>, isText: bool, o: Options): (r: Parsed<Value>)
    requires ai < 32
    ensures r.Ok? ==> |r.rest| <= |s|
  {
    var len := ReadLen(2, ai, s);
    if len.Err? then Err(len.error)
    else if len.value.Definite? then
      var b := ReadExact(len.rest, len.value.n);
      if b.Err? then Err(b.error) else MakeString(b.value, isText, b.rest)
    else if o.rejectIndefinite then Err(IndefiniteNotAllowed)
    else
      var b := DecodeChunks(len.rest, isText, []);
      if b.Err? then Err(b.error) else MakeString(b.value, isText, b.rest)
  }

  function DecodeInteger(major: nat, ai: nat, s: seq<byte>, o: Options): (r: Parsed<Value>)
    requires major < 2 && ai < 32
    ensures r.Ok? ==> |r.rest| <= |s|
  {
    var len := ReadLen(major, ai, s);
    if len.Err? then Err(len.error)
    else if len.value.Indefinite? then Err(InvalidInitialByte(32 * major + ai))
    else if o.canonical && len.value.width != MinimalWidth(len.value.n) then Err(InvalidInitialByte(0))
    else Ok(Integer(if major == 0 then len.value.n else -1 - len.value.n), len.rest)
  }

  /** One data item. */
  function Decode(s: seq<byte>, o: Options): (r: Parsed<Value>)
    ensures r.Ok? ==> |r.rest| + 1 <= |s|
    decreases |s|, 0
  {
    if s == [] then Err(UnexpectedEof)
    else
      var major, ai, t := s[0] / 32, s[0] % 32, s[1..];
      if major <= 1 then DecodeInteger(major, ai, t, o)
      else if major == 2 then DecodeString(ai, t, false, o)
      else if major == 3 then DecodeString(ai, t, true, o)
      else if major == 4 then DecodeArray(ai, t, o)
      else if major == 5 then DecodeMap(ai, t, o)
      else if major == 6 then DecodeTag(ai, t, o)
      else DecodeSimple(ai, t)
  }

  function DecodeArray(ai: nat, s: seq<byte>, o: Options): (r: Parsed<Value>)
    requires ai < 32
    ensures r.Ok? ==> |r.rest| <= |s|
    decreases |s|, 3
  {
    var len := ReadLen(4, ai, s);
    if len.Err? then Err(len.error)
    else if len.value.Definite? then Materialize(DecodeItems(len.value.n, len.rest, [], o))
    else if o.rejectIndefinite then Err(IndefiniteNotAllowed)
    else Materialize(DecodeItemsUntilBreak(len.rest, [], o))
  }

  function DecodeMap(ai: nat, s: seq<byte>, o: Options): (r: Parsed<Value>)
    requires ai < 32
    ensures r.Ok? ==> |r.rest| <= |s|
    decreases |s|, 3
  {
    var len := ReadLen(5, ai, s);
    if len.Err? then Err(len.error)
    else if len.value.Definite? then MaterializeMap(DecodePairs(len.value.n, len.rest, [], o))
    else if o.rejectIndefinite then Err(IndefiniteNotAllowed)
    else MaterializeMap(DecodePairsUntilBreak(len.rest, [], o))
  }

  function DecodeTag(ai: nat, s: seq<byte>, o: Options): (r: Parsed<Value>)
    requires ai < 32
    ensures r.Ok? ==> |r.rest| + 1 <= |s|
    decreases |s|, 3
  {
    var len := ReadLen(6, ai, s);
    if len.Err? then Err(len.error)
    else if len.value.Indefinite? then Err(InvalidInitialByte(192 + ai))
    else
      var inner := Decode(len.rest, o);
      if inner.Err? then Err(inner.error) else Ok(MakeTag(len.value.n, inner.value), inner.rest)
  }

  function Materialize(p: Parsed<seq<Value>>): (r: Parsed<Value>)
  {
    if p.Err? then Err(p.error) else Ok(Array(p.value), p.rest)
  }

  function MaterializeMap(p: Parsed<seq<Pair>>): (r: Parsed<Value>)
  {
    if p.Err? then Err(p.error) else Ok(Map(p.value), p.rest)
  }

  /** `n` more items, after `acc`. */
  function DecodeItems(n: nat, s: seq<byte>, acc: seq<Value>, o: Options): (r: Parsed<seq<Value>>)
    ensures r.Ok? ==> |r.rest| <= |s|
    decreases |s|, 1
  {
    if n == 0 then Ok(acc, s)
    else
      var item := Decode(s, o);
      if item.Err? then Err(item.error) else DecodeItems(n - 1, item.rest, acc + [item.value], o)
  }

  function DecodeItemsUntilBreak(s: seq<byte>, acc: seq<Value>, o: Options): (r: Parsed<seq<Value>>)
    ensures r.Ok? ==> |r.rest| + 1 <= |s|
    decreases |s|, 1
  {
    if s == [] then Err(UnexpectedEof)
    else if s[0] == 0xff then Ok(acc, s[1..])
    else
      var item := Decode(s, o);
      if item.Err? then Err(item.error) else DecodeItemsUntilBreak(item.rest, acc + [item.value], o)
  }

  predicate HasKey(pairs: seq<Pair>, key: Value)
  {
    exists i :: 0 <= i < |pairs| && pairs[i].key == key
  }

  /** One key and one value, checked against the pairs before them. */
  function DecodePair(s: seq<byte>, acc: seq<Pair>, o: Options): (r: Parsed<Pair>)
    ensures r.Ok? ==> |r.rest| + 2 <= |s|
    decreases |s|, 1
  {
    var key := Decode(s, o);
    if key.Err? then Err(key.error)
    else
      var val := Decode(key.rest, o);
      if val.Err? then Err(val.error)
      else if (o.rejectDuplicateKeys || o.canonical) && HasKey(acc, key.value) then Err(DuplicateKey)
      else if o.canonical && acc != [] && !KeyLess(acc[|acc| - 1].key, key.value) then Err(DuplicateKey)
      else Ok(Pair(key.value, val.value), val.rest)
  }

  function DecodePairs(n: nat, s: seq<byte>, acc: seq<Pair>, o: Options): (r: Parsed<seq<Pair>>)
    ensures r.Ok? ==> |r.rest| <= |s|
    decreases |s|, 2
  {
    if n == 0 then Ok(acc, s)
    else
      var p := DecodePair(s, acc, o);
      if p.Err? then Err(p.error) else DecodePairs(n - 1, p.rest, acc + [p.value], o)
  }

  function DecodePairsUntilBreak(s: seq<byte>, acc: seq<Pair>, o: Options): (r: Parsed<seq<Pair>>)
    ensures r.Ok? ==> |r.rest| + 1 <= |s|
    decreases |s|, 2
  {
    if s == [] then Err(UnexpectedEof)
    else if s[0] == 0xff then Ok(acc, s[1..])
    else
      var p := DecodePair(s, acc, o);
      if p.Err? then Err(p.error) else DecodePairsUntilBreak(p.rest, acc + [p.value], o)
  }

  /** The entry point: in canonical mode nothing may follow the item. */
  function DecodeAll(s: seq<byte>, o: Options): (r: Parsed<Value>)
  {
    var r := Decode(s, o);
    if r.Ok? && r.rest != [] && o.canonical then Err(InvalidInitialByte(0)) else r
  }
}
