/**
 AES key wrap and unwrap (RFC 3394) as written in tpt-cms/src/crypto.rs, over an abstract keyed
 block permutation.
 */
module KeyWrap {
  import opened Limbs
  import opened BigEndian
  import opened Wrappers

  /** An `[u8; 8]`, held as the number its bytes spell, most significant first. */
  type Half = u64

  /** An `[u8; 16]`, by halves. */
  datatype Block = Block(first: Half, second: Half)

  /** The block cipher family: one permutation and its inverse per key. */
  datatype Cipher = Cipher(enc: (seq<byte>, Block) -> Block, dec: (seq<byte>, Block) -> Block) {
    ghost predicate Lawful()
    {
      && (forall k, b :: dec(k, enc(k, b)) == b)
      && (forall k, b :: enc(k, dec(k, b)) == b)
    }
  }

  datatype Error = InvalidInputLength | InvalidKeyLength | IntegrityCheckFailed

  const IV: Half := 0xA6A6_A6A6_A6A6_A6A6

  predicate ValidKey(kek: seq<byte>) { |kek| == 16 || |kek| == 24 || |kek| == 32 }

  // ----- specification -----

  /** Exclusive or of two numbers, bit by bit. */
  function XorNat(a: nat, b: nat): (r: nat)
  {
    if a == 0 && b == 0 then 0 else XorBit(a % 2, b % 2) + 2 * XorNat(a / 2, b / 2)
  }

  function XorBit(a: nat, b: nat): (r: nat)
    ensures r < 2
  {
    if a == b then 0 else 1
  }

  lemma {:induction false} XorNatTwice(a: nat, b: nat)
    ensures XorNat(XorNat(a, b), b) == a
  {
    if a != 0 || b != 0 {
      XorNatTwice(a / 2, b / 2);
      XorNatHalves(a, b);
      XorNatHalves(XorNat(a, b), b);
    }
  }

  lemma XorNatHalves(a: nat, b: nat)
    ensures XorNat(a, b) % 2 == XorBit(a % 2, b % 2) && XorNat(a, b) / 2 == XorNat(a / 2, b / 2)
  {}

  lemma {:induction false} XorNatFits(a: nat, b: nat, k: nat)
    requires a < Pow2(k) && b < Pow2(k)
    ensures XorNat(a, b) < Pow2(k)
  {
    if a != 0 || b != 0 { XorNatFits(a / 2, b / 2, k - 1); }
  }

  function Xor(a: Half, b: Half): (r: Half)
  {
    Pow2At64();
    XorNatFits(a, b, 64);
    XorNat(a, b)
  }

  lemma XorTwice(a: Half, b: Half)
    ensures Xor(Xor(a, b), b) == a
  {
    XorNatTwice(a, b);
  }

  /** The integrity register and the key blocks. */
  datatype State = State(a: Half, r: seq<Half>)

  /** One wrap step on block `i` with counter `t`. */
  function WrapStep(c: Cipher, kek: seq<byte>, s: State, i: nat, t: Half): (s': State)
  {
    if i >= |s.r| then s
    else
      var out := c.enc(kek, Block(s.a, s.r[i]));
      State(Xor(out.first, t), s.r[i := out.second])
  }

  function UnwrapStep(c: Cipher, kek: seq<byte>, s: State, i: nat, t: Half): (s': State)
  {
    if i >= |s.r| then s
    else
      var out := c.dec(kek, Block(Xor(s.a, t), s.r[i]));
      State(out.first, s.r[i := out.second])
  }

  lemma StepsInverse(c: Cipher, kek: seq<byte>, s: State, i: nat, t: Half)
    requires c.Lawful()
    ensures UnwrapStep(c, kek, WrapStep(c, kek, s, i, t), i, t) == s
    ensures WrapStep(c, kek, UnwrapStep(c, kek, s, i, t), i, t) == s
  {
    if i < |s.r| {
      var out := c.enc(kek, Block(s.a, s.r[i]));
      XorTwice(out.first, t);
      assert s.r[i := out.second][i := s.r[i]] == s.r;
      var back := c.dec(kek, Block(Xor(s.a, t), s.r[i]));
      XorTwice(s.a, t);
      assert s.r[i := back.second][i := s.r[i]] == s.r;
    }
  }

  // ----- running a step function over all blocks and rounds, forwards and backwards -----

  type Step = (State, nat, nat) -> State

  ghost predicate Inverse(f: Step, g: Step)
  {
    forall s, i, t :: g(f(s, i, t), i, t) == s
  }

  /** The first `i` steps of a round that starts after `t` steps. */
  function Row(f: Step, s: State, t: nat, i: nat): (s': State)
  {
    if i == 0 then s else f(Row(f, s, t, i - 1), i - 1, t + i)
  }

  /** Steps `n - 1` down to `i` of that round. */
  function RowBack(g: Step, s: State, t: nat, n: nat, i: nat): (s': State)
    decreases n - i
  {
    if i >= n then s else g(RowBack(g, s, t, n, i + 1), i, t + i + 1)
  }

  lemma {:induction false} RowUndone(f: Step, g: Step, s: State, t: nat, n: nat, i: nat)
    requires Inverse(f, g) && i <= n
    ensures RowBack(g, Row(f, s, t, n), t, n, i) == Row(f, s, t, i)
    decreases n - i
  {
    if i < n { RowUndone(f, g, s, t, n, i + 1); }
  }

  lemma {:induction false} RowRedone(f: Step, g: Step, s: State, t: nat, n: nat, i: nat)
    requires Inverse(g, f) && i <= n
    ensures Row(f, RowBack(g, s, t, n, 0), t, i) == RowBack(g, s, t, n, i)
  {
    if i > 0 { RowRedone(f, g, s, t, n, i - 1); }
  }

  /** The number of steps before round `j`. */
  function RoundBase(n: nat, j: nat): (t: nat)
  {
    if j == 0 then 0 else RoundBase(n, j - 1) + n
  }

  lemma {:induction false} RoundBaseIsProduct(n: nat, j: nat)
    ensures RoundBase(n, j) == n * j
  {
    if j > 0 { RoundBaseIsProduct(n, j - 1); }
  }

  /** The first `j` rounds over `n` blocks. */
  function Rounds(f: Step, s: State, n: nat, j: nat): (s': State)
  {
    if j == 0 then s else Row(f, Rounds(f, s, n, j - 1), RoundBase(n, j - 1), n)
  }

  /** Rounds `rounds - 1` down to `j`. */
  function RoundsBack(g: Step, s: State, n: nat, rounds: nat, j: nat): (s': State)
    decreases rounds - j
  {
    if j >= rounds then s else RowBack(g, RoundsBack(g, s, n, rounds, j + 1), RoundBase(n, j), n, 0)
  }

  lemma {:induction false} RoundsUndone(f: Step, g: Step, s: State, n: nat, rounds: nat, j: nat)
    requires Inverse(f, g) && j <= rounds
    ensures RoundsBack(g, Rounds(f, s, n, rounds), n, rounds, j) == Rounds(f, s, n, j)
    decreases rounds - j
  {
    if j < rounds {
      RoundsUndone(f, g, s, n, rounds, j + 1);
      RowUndone(f, g, Rounds(f, s, n, j), RoundBase(n, j), n, 0);
    }
  }

  lemma {:induction false} RoundsRedone(f: Step, g: Step, s: State, n: nat, rounds: nat, j: nat)
    requires Inverse(g, f) && j <= rounds
    ensures Rounds(f, RoundsBack(g, s, n, rounds, 0), n, j) == RoundsBack(g, s, n, rounds, j)
  {
    if j > 0 {
      RoundsRedone(f, g, s, n, rounds, j - 1);
      RowRedone(f, g, RoundsBack(g, s, n, rounds, j), RoundBase(n, j - 1), n, n);
    }
  }

  /** A step number as a 64-bit word; every counter that occurs fits. */
  function Counter(t: nat): (w: Half) { if t < B64 then t else 0 }

  function Wrapping(c: Cipher, kek: seq<byte>): (f: Step) { (s: State, i: nat, t: nat) => WrapStep(c, kek, s, i, Counter(t)) }

  function Unwrapping(c: Cipher, kek: seq<byte>): (g: Step) { (s: State, i: nat, t: nat) => UnwrapStep(c, kek, s, i, Counter(t)) }

  lemma WrappingInverse(c: Cipher, kek: seq<byte>)
    requires c.Lawful()
    ensures Inverse(Wrapping(c, kek), Unwrapping(c, kek)) && Inverse(Unwrapping(c, kek), Wrapping(c, kek))
  {
    forall s: State, i: nat, t: nat
      ensures Unwrapping(c, kek)(Wrapping(c, kek)(s, i, t), i, t) == s
      ensures Wrapping(c, kek)(Unwrapping(c, kek)(s, i, t), i, t) == s
    {
      StepsInverse(c, kek, s, i, Counter(t));
    }
  }

  /** A step function never changes the number of blocks. */
  ghost predicate KeepsLength(f: Step)
  {
    forall s, i, t :: |f(s, i, t).r| == |s.r|
  }

  lemma {:induction false} RowLength(f: Step, s: State, t: nat, i: nat)
    requires KeepsLength(f)
    ensures |Row(f, s, t, i).r| == |s.r|
  {
    if i > 0 { RowLength(f, s, t, i - 1); }
  }

  lemma {:induction false} RoundsLength(f: Step, s: State, n: nat, j: nat)
    requires KeepsLength(f)
    ensures |Rounds(f, s, n, j).r| == |s.r|
  {
    if j > 0 {
      RoundsLength(f, s, n, j - 1);
      RowLength(f, Rounds(f, s, n, j - 1), RoundBase(n, j - 1), n);
    }
  }

  function Bytes(h: Half): (b: seq<byte>)
    ensures |b| == 8
  {
    BeBytes(h, 8)
  }

  function HalfOf(b: seq<byte>): (h: Half)
    requires |b| == 8
  {
    Pow256Values();
    BeBytesVal(b);
    BeVal(b)
  }

  lemma HalfOfBytes(h: Half)
    ensures HalfOf(Bytes(h)) == h
  {
    Pow256Values();
    BeValBytes(h, 8);
  }

  lemma BytesOfHalf(b: seq<byte>)
    requires |b| == 8
    ensures Bytes(HalfOf(b)) == b
  {
    BeBytesVal(b);
  }

  /** Cutting a byte string into 8-byte blocks. */
  function Blocks(b: seq<byte>): (r: seq<Half>)
    requires |b| % 8 == 0
    ensures |r| == |b| / 8
  {
    if b == [] then [] else [HalfOf(b[..8])] + Blocks(b[8..])
  }

  function Flatten(r: seq<Half>): (b: seq<byte>)
    ensures |b| == 8 * |r|
  {
    if r == [] then [] else Bytes(r[0]) + Flatten(r[1..])
  }

  lemma {:induction false} FlattenBlocks(b: seq<byte>)
    requires |b| % 8 == 0
    ensures Flatten(Blocks(b)) == b
  {
    if b != [] {
      FlattenBlocks(b[8..]);
      BytesOfHalf(b[..8]);
      assert Blocks(b)[1..] == Blocks(b[8..]);
    }
  }

  lemma {:induction false} BlocksFlatten(r: seq<Half>)
    ensures Blocks(Flatten(r)) == r
  {
    if r != [] {
      BlocksFlatten(r[1..]);
      HalfOfBytes(r[0]);
      assert Flatten(r)[..8] == Bytes(r[0]) && Flatten(r)[8..] == Flatten(r[1..]);
    }
  }

  lemma {:induction false} BlockAt(b: seq<byte>, i: nat)
    requires |b| % 8 == 0 && i < |b| / 8
    ensures Blocks(b)[i] == HalfOf(b[8 * i..8 * i + 8])
  {
    if i > 0 {
      BlockAt(b[8..], i - 1);
      assert b[8..][8 * (i - 1)..8 * (i - 1) + 8] == b[8 * i..8 * i + 8];
    }
  }

  lemma {:induction false} FlattenSnoc(r: seq<Half>, x: Half)
    ensures Flatten(r + [x]) == Flatten(r) + Bytes(x)
  {
    if r == [] {
      assert r + [x] == [x] && Flatten([x][1..]) == [];
    } else {
      FlattenSnoc(r[1..], x);
      assert (r + [x])[1..] == r[1..] + [x];
    }
  }

  /** The wire form of a state: the register followed by the blocks. */
  function Pack(s: State): (b: seq<byte>)
    ensures |b| == 8 + 8 * |s.r|
  {
    Bytes(s.a) + Flatten(s.r)
  }

  function Unpack(b: seq<byte>): (s: State)
    requires |b| >= 16 && |b| % 8 == 0
    ensures |s.r| == |b| / 8 - 1 > 0
  {
    State(HalfOf(b[..8]), Blocks(b[8..]))
  }

  lemma UnpackPack(s: State)
    requires |s.r| > 0
    ensures Unpack(Pack(s)) == s
  {
    HalfOfBytes(s.a);
    assert Pack(s)[..8] == Bytes(s.a) && Pack(s)[8..] == Flatten(s.r);
    BlocksFlatten(s.r);
  }

  lemma PackUnpack(b: seq<byte>)
    requires |b| >= 16 && |b| % 8 == 0
    ensures Pack(Unpack(b)) == b
  {
    BytesOfHalf(b[..8]);
    FlattenBlocks(b[8..]);
  }

  const ROUNDS: nat := 6

  function Wrap(c: Cipher, kek: seq<byte>, plaintext: seq<byte>): (r: Result<seq<byte>, Error>)
  {
    if |plaintext| % 8 != 0 || |plaintext| == 0 then Failure(InvalidInputLength)
    else if !ValidKey(kek) then Failure(InvalidKeyLength)
    else Success(Pack(Rounds(Wrapping(c, kek), State(IV, Blocks(plaintext)), |plaintext| / 8, ROUNDS)))
  }

  function Unwrap(c: Cipher, kek: seq<byte>, wrapped: seq<byte>): (r: Result<seq<byte>, Error>)
  {
    if |wrapped| < 16 || |wrapped| % 8 != 0 then Failure(InvalidInputLength)
    else if !ValidKey(kek) then Failure(InvalidKeyLength)
    else
      var s := RoundsBack(Unwrapping(c, kek), Unpack(wrapped), |wrapped| / 8 - 1, ROUNDS, 0);
      if s.a != IV then Failure(IntegrityCheckFailed) else Success(Flatten(s.r))
  }

  /** Unwrapping what was wrapped gives the key back. */
  lemma UnwrapWrap(c: Cipher, kek: seq<byte>, x: seq<byte>)
    requires c.Lawful()
    ensures Wrap(c, kek, x).Success? <==> |x| % 8 == 0 && |x| > 0 && ValidKey(kek)
    ensures Wrap(c, kek, x).Success? ==> |Wrap(c, kek, x).value| == |x| + 8
    ensures Wrap(c, kek, x).Success? ==> Unwrap(c, kek, Wrap(c, kek, x).value) == Success(x)
  {
    if Wrap(c, kek, x).Success? {
      var f, g, s, n := Wrapping(c, kek), Unwrapping(c, kek), State(IV, Blocks(x)), |x| / 8;
      WrappingInverse(c, kek);
      RoundsLength(f, s, n, ROUNDS);
      UnpackPack(Rounds(f, s, n, ROUNDS));
      RoundsUndone(f, g, s, n, ROUNDS, 0);
      FlattenBlocks(x);
    }
  }

  /** Whatever unwraps successfully is exactly a wrapping of the result. */
  lemma WrapUnwrap(c: Cipher, kek: seq<byte>, w: seq<byte>)
    requires c.Lawful() && Unwrap(c, kek, w).Success?
    ensures |Unwrap(c, kek, w).value| == |w| - 8
    ensures Wrap(c, kek, Unwrap(c, kek, w).value) == Success(w)
  {
    WrappingInverse(c, kek);
    Rewrapped(Wrapping(c, kek), Unwrapping(c, kek), w, ROUNDS);
    var s := RoundsBack(Unwrapping(c, kek), Unpack(w), |w| / 8 - 1, ROUNDS, 0);
    var x := Flatten(s.r);
    assert Unwrap(c, kek, w) == Success(x) && s.a == IV;
    assert |x| % 8 == 0 && |x| / 8 == |s.r|;
  }

  lemma Rewrapped(f: Step, g: Step, w: seq<byte>, rounds: nat)
    requires Inverse(g, f) && KeepsLength(f) && |w| >= 16 && |w| % 8 == 0
    ensures var s := RoundsBack(g, Unpack(w), |w| / 8 - 1, rounds, 0);
            && |s.r| == |w| / 8 - 1
            && Pack(Rounds(f, State(s.a, Blocks(Flatten(s.r))), |s.r|, rounds)) == w
  {
    var n := |w| / 8 - 1;
    var s := RoundsBack(g, Unpack(w), n, rounds, 0);
    RoundsRedone(f, g, Unpack(w), n, rounds, rounds);
    RoundsLength(f, s, n, rounds);
    BlocksFlatten(s.r);
    PackUnpack(w);
  }

  // ----- the loops of the source -----

  /** The counter of step `i` of round `j`; it fits in 64 bits. */
  method CounterAt(n: nat, j: nat, i: nat) returns (t: u64)
    requires n < B63 / 8 && j < 6 && i < n
    ensures t == RoundBase(n, j) + i + 1 == Counter(RoundBase(n, j) + i + 1)
  {
    MulMono(j, 5, n);
    RoundBaseIsProduct(n, j);
    t := n * j + i + 1;
  }

  /** The body of the inner wrapping loop, in place on block `i`. */
  method WrapBlock(c: Cipher, kek: seq<byte>, a0: Half, r: array<Half>, i: nat, t: Half) returns (a: Half)
    requires i < r.Length
    modifies r
    ensures State(a, r[..]) == WrapStep(c, kek, State(a0, old(r[..])), i, t)
  {
    var out := c.enc(kek, Block(a0, r[i]));
    a := Xor(out.first, t);
    r[i] := out.second;
    assert r[..] == old(r[..])[i := out.second];
  }

  /** Round `j`: one step per block, first to last. */
  method WrapRound(c: Cipher, kek: seq<byte>, a0: Half, r: array<Half>, j: nat) returns (a: Half)
    requires r.Length < B63 / 8 && j < 6
    modifies r
    ensures State(a, r[..]) == Row(Wrapping(c, kek), State(a0, old(r[..])), RoundBase(r.Length, j), r.Length)
  {
    a := a0;
    ghost var f, s0, t0 := Wrapping(c, kek), State(a0, r[..]), RoundBase(r.Length, j);
    for i := 0 to r.Length
      invariant State(a, r[..]) == Row(f, s0, t0, i)
    {
      var t := CounterAt(r.Length, j, i);
      a := WrapBlock(c, kek, a, r, i, t);
    }
  }

  method WrapAll(c: Cipher, kek: seq<byte>, a0: Half, r: array<Half>, rounds: nat) returns (a: Half)
    requires r.Length < B63 / 8 && rounds <= 6
    modifies r
    ensures State(a, r[..]) == Rounds(Wrapping(c, kek), State(a0, old(r[..])), r.Length, rounds)
  {
    a := a0;
    for j := 0 to rounds
      invariant State(a, r[..]) == Rounds(Wrapping(c, kek), State(a0, old(r[..])), r.Length, j)
    {
      a := WrapRound(c, kek, a, r, j);
    }
  }

  method AesKeyWrap(c: Cipher, kek: seq<byte>, plaintext: seq<byte>) returns (result: Result<seq<byte>, Error>)
    requires |plaintext| < B63
    ensures result == Wrap(c, kek, plaintext)
  {
    if |plaintext| % 8 != 0 || |plaintext| == 0 { return Failure(InvalidInputLength); }
    if !ValidKey(kek) { return Failure(InvalidKeyLength); }
    var r := ToBlocks(plaintext);
    var a := WrapAll(c, kek, IV, r, ROUNDS);
    var body := FromBlocks(r);
    result := Success(Bytes(a) + body);
  }

  method UnwrapBlock(c: Cipher, kek: seq<byte>, a0: Half, r: array<Half>, i: nat, t: Half) returns (a: Half)
    requires i < r.Length
    modifies r
    ensures State(a, r[..]) == UnwrapStep(c, kek, State(a0, old(r[..])), i, t)
  {
    var out := c.dec(kek, Block(Xor(a0, t), r[i]));
    a := out.first;
    r[i] := out.second;
    assert r[..] == old(r[..])[i := out.second];
  }

  /** Round `j`, undone: one step per block, last to first. */
  method UnwrapRound(c: Cipher, kek: seq<byte>, a0: Half, r: array<Half>, j: nat) returns (a: Half)
    requires r.Length < B63 / 8 && j < 6
    modifies r
    ensures State(a, r[..]) == RowBack(Unwrapping(c, kek), State(a0, old(r[..])), RoundBase(r.Length, j), r.Length, 0)
  {
    a := a0;
    ghost var g, s0, t0 := Unwrapping(c, kek), State(a0, r[..]), RoundBase(r.Length, j);
    var i := r.Length;
    while i > 0
      invariant 0 <= i <= r.Length
      invariant State(a, r[..]) == RowBack(g, s0, t0, r.Length, i)
    {
      i := i - 1;
      var t := CounterAt(r.Length, j, i);
      a := UnwrapBlock(c, kek, a, r, i, t);
    }
  }

  method UnwrapAll(c: Cipher, kek: seq<byte>, a0: Half, r: array<Half>, rounds: nat) returns (a: Half)
    requires r.Length < B63 / 8 && rounds <= 6
    modifies r
    ensures State(a, r[..]) == RoundsBack(Unwrapping(c, kek), State(a0, old(r[..])), r.Length, rounds, 0)
  {
    a := a0;
    var j := rounds;
    while j > 0
      invariant 0 <= j <= rounds
      invariant State(a, r[..]) == RoundsBack(Unwrapping(c, kek), State(a0, old(r[..])), r.Length, rounds, j)
    {
      j := j - 1;
      a := UnwrapRound(c, kek, a, r, j);
    }
  }

  method AesKeyUnwrap(c: Cipher, kek: seq<byte>, wrapped: seq<byte>) returns (result: Result<seq<byte>, Error>)
    requires |wrapped| < B63
    ensures result == Unwrap(c, kek, wrapped)
  {
    if |wrapped| < 16 || |wrapped| % 8 != 0 { return Failure(InvalidInputLength); }
    if !ValidKey(kek) { return Failure(InvalidKeyLength); }
    var r := ToBlocks(wrapped[8..]);
    var a := UnwrapAll(c, kek, HalfOf(wrapped[..8]), r, ROUNDS);
    if a != IV { return Failure(IntegrityCheckFailed); }
    var body := FromBlocks(r);
    result := Success(body);
  }

  method ToBlocks(b: seq<byte>) returns (r: array<Half>)
    requires |b| % 8 == 0
    ensures fresh(r) && r[..] == Blocks(b)
  {
    r := new Half[|b| / 8](_ => IV);
    for i := 0 to |b| / 8
      invariant forall k :: 0 <= k < i ==> r[k] == Blocks(b)[k]
    {
      BlockAt(b, i);
      r[i] := HalfOf(b[8 * i..8 * i + 8]);
    }
  }

  method FromBlocks(r: array<Half>) returns (b: seq<byte>)
    ensures b == Flatten(r[..])
  {
    b := [];
    for i := 0 to r.Length
      invariant b == Flatten(r[..i])
    {
      FlattenSnoc(r[..i], r[i]);
      assert r[..i + 1] == r[..i] + [r[i]];
      b := b + Bytes(r[i]);
    }
    assert r[..r.Length] == r[..];
  }
}
