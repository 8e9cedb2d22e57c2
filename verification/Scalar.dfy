/** Arithmetic modulo the group order L on four 64-bit limbs (tpt-ed25519/src/scalar.rs). */
module Scalars {
  import opened Limbs
  import opened LimbArithmetic
  import opened LimbBytes
  import opened Wrappers

  const ORDER: nat := 0x1000_0000_0000_0000_0000_0000_0000_0000_14de_f9de_a2f7_9cd6_5812_631a_5cf5_d3ed

  const L: seq<u64> := [0x5812_631a_5cf5_d3ed, 0x14de_f9de_a2f7_9cd6, 0x0000_0000_0000_0000, 0x1000_0000_0000_0000]

  lemma OrderValue()
    ensures Val(L) == ORDER && 4 * ORDER < Weight(4)
  {
    assert L[..4] == L && L[..0] == [];
    ValSnoc(L, 0);
    ValSnoc(L, 1);
    ValSnoc(L, 2);
    ValSnoc(L, 3);
    assert Weight(1) == B64 * Weight(0);
    assert Weight(2) == B64 * Weight(1);
    assert Weight(3) == B64 * Weight(2);
  }

  /** In-place left shift by one bit; nothing is shifted out when the top bit is clear. */
  method ShiftLeft(r: array<u64>)
    requires r.Length == 4 && 2 * Val(r[..]) < Weight(4)
    modifies r
    ensures Val(r[..]) == 2 * old(Val(r[..]))
  {
    ghost var was := r[..];
    var carry: u64 := 0;
    for i := 0 to 4
      invariant carry < 2
      invariant r[i..] == was[i..]
      invariant Val(r[..i]) + carry * Weight(i) == 2 * Val(was[..i])
    {
      var nb: u64 := r[i] * 2 % B64 + carry;
      ghost var before := r[..i];
      var top := r[i] / B63;
      r[i] := nb;
      assert r[i + 1..] == was[i + 1..];
      ValSnoc(was, i);
      ValPush(before, r[..i + 1]);
      DoubleStep(was[i], carry, Weight(i));
      carry := top;
    }
    assert r[..4] == r[..] && was[..4] == was;
    NoCarry(Val(r[..]), carry, Weight(4));
  }

  lemma DoubleStep(x: u64, carry: int, w: int)
    ensures (x * 2 % B64 + carry) * w + x / B63 * (B64 * w) == 2 * (x * w) + carry * w
  {
    assert x * 2 % B64 + x / B63 * B64 == 2 * x;
    var d, t := x * 2 % B64, x / B63;
    assert (d + carry) * w == d * w + carry * w;
    assert (d + t * B64) * w == d * w + t * (B64 * w);
  }

  /** In-place increment, rippling the carry through all four limbs. */
  method Increment(r: array<u64>)
    requires r.Length == 4 && Val(r[..]) + 1 < Weight(4)
    modifies r
    ensures Val(r[..]) == old(Val(r[..])) + 1
  {
    var c: u128 := 1;
    for i := 0 to 4
      invariant c <= 1
      invariant Val(r[..]) + c * Weight(i) == old(Val(r[..])) + 1
    {
      var s: u128 := r[i] + c;
      ghost var before := r[..];
      var d: u64 := s % B64;
      r[i] := d;
      assert r[..] == before[i := d];
      ValUpdate(before, i, d);
      RippleStep(before[i], c, s, Weight(i));
      c := s / B64;
    }
    NoCarry(Val(r[..]), c, Weight(4));
  }

  /** In-place subtraction of L from a number that is at least L. */
  method SubtractOrder(r: array<u64>)
    requires r.Length == 4 && Val(r[..]) >= ORDER
    modifies r
    ensures Val(r[..]) == old(Val(r[..])) - ORDER
  {
    var d, borrow := SubLimbs(r[..], L);
    OrderValue();
    NoBorrow(d, borrow);
    for i := 0 to 4
      invariant r[..i] == d[..i]
    {
      r[i] := d[i];
    }
    assert r[..] == r[..4] && d == d[..4];
  }

  /** Long division by L, one input bit at a time from the top; the remainder is kept in `r`. */
  method ModL(input: seq<u64>) returns (limbs: seq<u64>)
    ensures |limbs| == 4 && Val(limbs) == Val(input) % ORDER
  {
    var r := new u64[4](_ => 0);
    ValZeros(r[..]);
    OrderValue();
    var bit := 64 * |input|;
    NoHighBits(input);
    while bit > 0
      invariant 0 <= bit <= 64 * |input|
      invariant Val(r[..]) == Shr(Val(input), bit) % ORDER
    {
      bit := bit - 1;
      assert Val(r[..]) < ORDER;
      ShiftLeft(r);
      var b := Bit(input[bit / 64], bit % 64);
      if b == 1 {
        Increment(r);
      }
      RemainderStep(input, bit, ORDER);
      var ge := GreaterEq(r[..], L);
      if ge {
        SubtractOrder(r);
      }
    }
    limbs := r[..];
  }

  /** Doubling a remainder, adding a bit and subtracting the modulus at most once. */
  lemma DoubledRemainder(q: nat, b: nat, m: nat)
    requires m > 0 && b < 2
    ensures var x := 2 * (q % m) + b;
            x < 2 * m && (2 * q + b) % m == if x < m then x else x - m
  {
    var x := 2 * (q % m) + b;
    DivModMul(x, 2 * (q / m), m);
    DivModUnique(x, m, if x < m then 0 else 1, if x < m then x else x - m);
  }

  lemma RemainderStep(s: seq<u64>, bit: nat, m: nat)
    requires bit < 64 * |s| && m > 0
    ensures var x := 2 * (Shr(Val(s), bit + 1) % m) + Bit(s[bit / 64], bit % 64);
            x < 2 * m && Shr(Val(s), bit) % m == if x < m then x else x - m
  {
    HalvingStep(Val(s), bit);
    BitOfVal(s, bit / 64, bit % 64);
    DoubledRemainder(Shr(Val(s), bit + 1), Bit(s[bit / 64], bit % 64), m);
  }

  /** Four limbs holding a number below L. */
  datatype Scalar = Scalar(limbs: seq<u64>) {

    ghost function Value(): nat { Val(limbs) }

    ghost predicate Valid() { |limbs| == 4 && Value() < ORDER }

    /** Canonical parse: accepts exactly the 32-byte strings whose value is below L. */
    static method FromBytesLe(bytes: seq<u8>) returns (r: Option<Scalar>)
      requires |bytes| == 32
      ensures r.Some? <==> LeVal(bytes) < ORDER
      ensures r.Some? ==> r.value.Valid() && r.value.Value() == LeVal(bytes)
    {
      var limbs := LimbsFromBytes(bytes);
      OrderValue();
      var ge := GreaterEq(limbs, L);
      r := if ge then None else Some(Scalar(limbs));
    }

    method ToBytesLe() returns (out: seq<u8>)
      requires Valid()
      ensures |out| == 32 && LeVal(out) == Value()
    {
      out := BytesFromLimbs(limbs);
    }

    method AddMod(other: Scalar) returns (r: Scalar)
      requires Valid() && other.Valid()
      ensures r.Valid() && r.Value() == (Value() + other.Value()) % ORDER
    {
      var sum, carry := AddLimbs(limbs, other.limbs);
      OrderValue();
      NoCarry(Val(sum), carry, Weight(4));
      var t := ModL(sum);
      r := Scalar(t);
    }

    method MulMod(other: Scalar) returns (r: Scalar)
      requires |limbs| == 4 && |other.limbs| == 4
      ensures r.Valid() && r.Value() == Value() * other.Value() % ORDER
    {
      var wide := MulLimbs(limbs, other.limbs);
      var t := ModL(wide);
      r := Scalar(t);
    }
  }

  /** Parsing inverts encoding, and encoding inverts every successful parse. */
  method BytesRoundTrip(s: Scalar, bytes: seq<u8>) returns (back: Option<Scalar>, again: Option<seq<u8>>)
    requires s.Valid() && |bytes| == 32
    ensures back == Some(s)
    ensures again == if LeVal(bytes) < ORDER then Some(bytes) else None
  {
    var out := s.ToBytesLe();
    back := Scalar.FromBytesLe(out);
    ValInjective(back.value.limbs, s.limbs);
    var parsed := Scalar.FromBytesLe(bytes);
    if parsed.Some? {
      var enc := parsed.value.ToBytesLe();
      LeValInjective(enc, bytes);
      again := Some(enc);
    } else {
      again := None;
    }
  }
}
