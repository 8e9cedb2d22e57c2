/**
 Reading and writing big-endian fields, as tpt-bgp/src/wire.rs and tpt-dtls/src/wire.rs do it: functions
 from the unread bytes to a value and the bytes after it, and the cursor and buffer classes that refine them.
 */
module Wire {
  import opened BigEndian
  import opened Sequences
  import opened Wrappers

  datatype Error =
    | Truncated
    | LengthMismatch
    | UnknownType(code: byte)
    | UnsupportedVersion(version: byte)
    | MalformedCapability(code: byte)
    | FragmentOutOfRange
    | ConnectionIdTooLong

  /** A value and the bytes after it, or an error. */
  datatype Parsed<+T> = Ok(value: T, rest: seq<byte>) | Err(error: Error)

  // ----- Fields -----

  function TakeBytes(s: seq<byte>, n: nat): (r: Parsed<seq<byte>>)
    ensures r.Ok? ==> |r.value| == n && |r.rest| + n == |s|
  {
    if |s| < n then Err(Truncated) else Ok(s[..n], s[n..])
  }

  function TakeNumber(s: seq<byte>, width: nat): (r: Parsed<nat>)
    ensures r.Ok? ==> |r.rest| + width == |s| && r.value < Pow256(width)
  {
    if |s| < width then Err(Truncated) else BeBytesVal(s[..width]); Ok(BeVal(s[..width]), s[width..])
  }

  function TakeByte(s: seq<byte>): (r: Parsed<byte>)
    ensures r.Ok? ==> |r.rest| + 1 == |s|
  {
    if s == [] then Err(Truncated) else Ok(s[0], s[1..])
  }

  function TakeU16(s: seq<byte>): (r: Parsed<u16>)
    ensures r.Ok? ==> |r.rest| + 2 == |s|
  {
    Pow256Values();
    var n := TakeNumber(s, 2);
    if n.Err? then Err(n.error) else Ok(n.value, n.rest)
  }

  function TakeU32(s: seq<byte>): (r: Parsed<u32>)
    ensures r.Ok? ==> |r.rest| + 4 == |s|
  {
    Pow256Values();
    var n := TakeNumber(s, 4);
    if n.Err? then Err(n.error) else Ok(n.value, n.rest)
  }

  /** A byte string after its length in `width` bytes. */
  function TakeVector(s: seq<byte>, width: nat): (r: Parsed<seq<byte>>)
    ensures r.Ok? ==> |r.rest| + |r.value| + width == |s|
  {
    var n := TakeNumber(s, width);
    if n.Err? then Err(n.error) else TakeBytes(n.rest, n.value)
  }

  function PutVector(v: seq<byte>, width: nat): (b: seq<byte>)
    ensures |b| == width + |v|
  {
    BeBytes(|v|, width) + v
  }

  lemma BytesParse(b: seq<byte>, rest: seq<byte>)
    ensures TakeBytes(b + rest, |b|) == Ok(b, rest)
  {
    assert (b + rest)[..|b|] == b && (b + rest)[|b|..] == rest;
  }

  lemma NumberParses(x: nat, width: nat, rest: seq<byte>)
    requires x < Pow256(width)
    ensures TakeNumber(BeBytes(x, width) + rest, width) == Ok(x, rest)
  {
    BeValBytes(x, width);
    BytesParse(BeBytes(x, width), rest);
  }

  lemma ByteParses(x: byte, rest: seq<byte>)
    ensures TakeByte([x] + rest) == Ok(x, rest)
  {
    assert ([x] + rest)[1..] == rest;
  }

  lemma U16Parses(x: u16, rest: seq<byte>)
    ensures TakeU16(BeBytes(x, 2) + rest) == Ok(x, rest)
  {
    Pow256Values();
    NumberParses(x, 2, rest);
  }

  lemma U32Parses(x: u32, rest: seq<byte>)
    ensures TakeU32(BeBytes(x, 4) + rest) == Ok(x, rest)
  {
    Pow256Values();
    NumberParses(x, 4, rest);
  }

  lemma VectorParses(v: seq<byte>, width: nat, rest: seq<byte>)
    requires |v| < Pow256(width)
    ensures TakeVector(PutVector(v, width) + rest, width) == Ok(v, rest)
  {
    Joined(BeBytes(|v|, width), v, rest);
    NumberParses(|v|, width, v + rest);
    BytesParse(v, rest);
  }

  // ----- Repetition -----

  type Parser<!T> = seq<byte> -> Parsed<T>

  /** Items until the bytes run out, after `acc`. An item that consumes nothing is refused. */
  function Many<T>(p: Parser<T>, s: seq<byte>, acc: seq<T>): (r: Parsed<seq<T>>)
    ensures r.Ok? ==> r.rest == []
    decreases |s|
  {
    if s == [] then Ok(acc, [])
    else
      var x := p(s);
      if x.Err? then Err(x.error)
      else if |x.rest| >= |s| then Err(Truncated)
      else Many(p, x.rest, acc + [x.value])
  }

  /** Exactly `n` items, after `acc`. */
  function Times<T>(p: Parser<T>, n: nat, s: seq<byte>, acc: seq<T>): (r: Parsed<seq<T>>)
    decreases n
  {
    if n == 0 then Ok(acc, s)
    else
      var x := p(s);
      if x.Err? then Err(x.error) else Times(p, n - 1, x.rest, acc + [x.value])
  }

  function Concat<T>(e: T -> seq<byte>, xs: seq<T>): (b: seq<byte>)
  {
    if xs == [] then [] else e(xs[0]) + Concat(e, xs[1..])
  }

  /** Parsing undoes encoding on `x`, whatever follows. */
  ghost predicate Reads<T(!new)>(p: Parser<T>, e: T -> seq<byte>, x: T)
  {
    e(x) != [] && forall rest :: p(e(x) + rest) == Ok(x, rest)
  }

  lemma {:induction false} ManyReads<T(!new)>(p: Parser<T>, e: T -> seq<byte>, xs: seq<T>, acc: seq<T>)
    requires forall i :: 0 <= i < |xs| ==> Reads(p, e, xs[i])
    ensures Many(p, Concat(e, xs), acc) == Ok(acc + xs, [])
  {
    if xs == [] {
      assert acc + xs == acc;
    } else {
      assert Reads(p, e, xs[0]);
      ManyReads(p, e, xs[1..], acc + [xs[0]]);
      assert acc + [xs[0]] + xs[1..] == acc + xs;
    }
  }

  lemma {:induction false} TimesReads<T(!new)>(p: Parser<T>, e: T -> seq<byte>, xs: seq<T>, acc: seq<T>, rest: seq<byte>)
    requires forall i :: 0 <= i < |xs| ==> Reads(p, e, xs[i])
    ensures Times(p, |xs|, Concat(e, xs) + rest, acc) == Ok(acc + xs, rest)
  {
    if xs == [] {
      assert Concat(e, xs) + rest == rest && acc + xs == acc;
    } else {
      assert Reads(p, e, xs[0]);
      Joined(e(xs[0]), Concat(e, xs[1..]), rest);
      TimesReads(p, e, xs[1..], acc + [xs[0]], rest);
      assert acc + [xs[0]] + xs[1..] == acc + xs;
    }
  }

  lemma ManyReadsAll<T(!new)>(p: Parser<T>, e: T -> seq<byte>, xs: seq<T>)
    requires forall i :: 0 <= i < |xs| ==> Reads(p, e, xs[i])
    ensures Many(p, Concat(e, xs), []) == Ok(xs, [])
  {
    ManyReads(p, e, xs, []);
    assert [] + xs == xs;
  }

  lemma TimesReadsAll<T(!new)>(p: Parser<T>, e: T -> seq<byte>, xs: seq<T>, rest: seq<byte>)
    requires forall i :: 0 <= i < |xs| ==> Reads(p, e, xs[i])
    ensures Times(p, |xs|, Concat(e, xs) + rest, []) == Ok(xs, rest)
  {
    TimesReads(p, e, xs, [], rest);
    assert [] + xs == xs;
  }

  lemma {:induction false} ConcatSnoc<T>(e: T -> seq<byte>, xs: seq<T>, i: nat)
    requires i < |xs|
    ensures Concat(e, xs[..i + 1]) == Concat(e, xs[..i]) + e(xs[i])
  {
    if i == 0 {
      assert xs[..1] == [xs[0]] && xs[..0] == [];
      assert [xs[0]][1..] == [];
    } else {
      ConcatSnoc(e, xs[1..], i - 1);
      assert xs[..i + 1][1..] == xs[1..][..i] && xs[..i][1..] == xs[1..][..i - 1];
      Joined(e(xs[0]), Concat(e, xs[1..][..i - 1]), e(xs[i]));
    }
  }

  // ----- The cursor and the buffer -----

  class Reader {
    const data: seq<byte>
    var pos: nat

    ghost predicate Valid()
      reads this
    {
      pos <= |data|
    }

    ghost function Unread(): (s: seq<byte>)
      requires Valid()
      reads this
    {
      data[pos..]
    }

    /** The outcome and the new position are those of `p`. */
    ghost predicate Agrees<T(!new)>(r: Result<T, Error>, p: Parsed<T>)
      reads this
    {
      && Valid()
      && match p {
         case Ok(v, rest) => r == Success(v) && Unread() == rest
         case Err(e) => r == Failure(e)
         }
    }

    constructor (data: seq<byte>)
      ensures Valid() && this.data == data && Unread() == data
    {
      this.data := data;
      pos := 0;
    }

    method Bytes(n: nat) returns (r: Result<seq<byte>, Error>)
      requires Valid()
      modifies this
      ensures Agrees(r, TakeBytes(old(Unread()), n))
    {
      if |data| - pos < n { return Failure(Truncated); }
      assert data[pos..pos + n] == data[pos..][..n];
      r := Success(data[pos..pos + n]);
      pos := pos + n;
    }

    method Number(width: nat) returns (r: Result<nat, Error>)
      requires Valid()
      modifies this
      ensures Agrees(r, TakeNumber(old(Unread()), width))
    {
      var b := Bytes(width);
      if b.Failure? { return Failure(b.error); }
      r := Success(BeVal(b.value));
    }

    method Byte() returns (r: Result<byte, Error>)
      requires Valid()
      modifies this
      ensures Agrees(r, TakeByte(old(Unread())))
    {
      if pos >= |data| { return Failure(Truncated); }
      r := Success(data[pos]);
      pos := pos + 1;
    }

    method U16() returns (r: Result<u16, Error>)
      requires Valid()
      modifies this
      ensures Agrees(r, TakeU16(old(Unread())))
    {
      Pow256Values();
      var n := Number(2);
      if n.Failure? { return Failure(n.error); }
      r := Success(n.value);
    }

    method U32() returns (r: Result<u32, Error>)
      requires Valid()
      modifies this
      ensures Agrees(r, TakeU32(old(Unread())))
    {
      Pow256Values();
      var n := Number(4);
      if n.Failure? { return Failure(n.error); }
      r := Success(n.value);
    }

    method Vector(width: nat) returns (r: Result<seq<byte>, Error>)
      requires Valid()
      modifies this
      ensures Agrees(r, TakeVector(old(Unread()), width))
    {
      var n := Number(width);
      if n.Failure? { return Failure(n.error); }
      r := Bytes(n.value);
    }
  }

  class Writer {
    var buf: seq<byte>

    constructor ()
      ensures buf == []
    {
      buf := [];
    }

    method Bytes(b: seq<byte>)
      modifies this
      ensures buf == old(buf) + b
    {
      buf := buf + b;
    }

    method Number(x: nat, width: nat)
      modifies this
      ensures buf == old(buf) + BeBytes(x, width)
    {
      buf := buf + BeBytes(x, width);
    }

    method Vector(v: seq<byte>, width: nat)
      modifies this
      ensures buf == old(buf) + PutVector(v, width)
    {
      Number(|v|, width);
      Bytes(v);
    }
  }
}
