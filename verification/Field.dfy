/** Arithmetic modulo p = 2^255 - 19 on four 64-bit limbs (tpt-ed25519/src/field.rs). */
module Field {
  import opened Limbs
  import opened LimbArithmetic
  import opened Powers
  import opened Primes
  import PrimeCertificates

  const TWO255: nat := 0x8000_0000_0000_0000_0000_0000_0000_0000_0000_0000_0000_0000_0000_0000_0000_0000
  const PRIME: nat := TWO255 - 19

  const P: seq<u64> := [0xFFFF_FFFF_FFFF_FFED, 0xFFFF_FFFF_FFFF_FFFF, 0xFFFF_FFFF_FFFF_FFFF, 0x7FFF_FFFF_FFFF_FFFF]

  const EXP: seq<u64> := [0xFFFF_FFFF_FFFF_FFEB, 0xFFFF_FFFF_FFFF_FFFF, 0xFFFF_FFFF_FFFF_FFFF, 0x7FFF_FFFF_FFFF_FFFF]

  lemma WeightConstants()
    ensures Weight(0) == 1 && Weight(1) == B64
    ensures Weight(2) == 0x1_0000_0000_0000_0000_0000_0000_0000_0000
    ensures Weight(3) * B63 == TWO255
    ensures Weight(4) == 2 * TWO255
  {
    assert Weight(1) == B64 * Weight(0);
    assert Weight(2) == B64 * Weight(1);
    assert Weight(3) == B64 * Weight(2);
  }

  lemma Val4(s: seq<u64>)
    requires |s| == 4
    ensures Val(s) == s[0] + s[1] * Weight(1) + s[2] * Weight(2) + s[3] * Weight(3)
  {
    assert s[..4] == s && s[..0] == [] && Weight(0) == 1;
    ValSnoc(s, 0);
    ValSnoc(s, 1);
    ValSnoc(s, 2);
    ValSnoc(s, 3);
  }

  lemma ConstantValues()
    ensures Val(P) == PRIME && Val(EXP) == PRIME - 2
  {
    WeightConstants();
    Val4(P);
    Val4(EXP);
  }

  // ----- the fold x -> (x mod 2^255) + 19 (x div 2^255) -----

  function Fold(x: nat): (y: nat) { x % TWO255 + 19 * (x / TWO255) }

  function FoldTimes(x: nat, n: nat): (y: nat)
  {
    if n == 0 then x else Fold(FoldTimes(x, n - 1))
  }

  /** Folding keeps the value modulo p, because 2^255 is 19 modulo p. */
  lemma {:induction false} FoldTimesCongruent(x: nat, n: nat)
    ensures FoldTimes(x, n) % PRIME == x % PRIME
  {
    if n > 0 {
      var y := FoldTimes(x, n - 1);
      FoldTimesCongruent(x, n - 1);
      assert y == Fold(y) + y / TWO255 * PRIME;
      DivModMul(Fold(y), y / TWO255, PRIME);
    }
  }

  /** The quotient of a nine-limb number by 2^255 is below 2^321. */
  lemma FirstQuotient(x: nat)
    requires x < Weight(9)
    ensures x / TWO255 < 0x2_0000_0000_0000_0000_0000_0000_0000_0000_0000_0000_0000_0000_0000_0000_0000_0000_0000_0000_0000_0000
  {
    WeightAdd(4, 5);
    WeightAdd(4, 1);
    WeightConstants();
    var q := 0x2_0000_0000_0000_0000_0000_0000_0000_0000_0000_0000_0000_0000_0000_0000_0000_0000_0000_0000_0000_0000;
    assert x < q * TWO255;
  }

  lemma ThirdFold(b: nat)
    requires b < TWO255 + 0x600_0000_0000_0000_0000
    ensures Fold(b) < TWO255
  {
    assert b / TWO255 == 0 || b / TWO255 == 1;
  }

  lemma SecondFold(a: nat)
    requires a < TWO255 + 19 * 0x2_0000_0000_0000_0000_0000_0000_0000_0000_0000_0000_0000_0000_0000_0000_0000_0000_0000_0000_0000_0000
    ensures Fold(a) < TWO255 + 0x600_0000_0000_0000_0000
  {
    assert a / TWO255 < 0x4D_0000_0000_0000_0000;
  }

  lemma ThreeFolds(x: nat)
    requires x < Weight(9)
    ensures Fold(Fold(Fold(x))) < TWO255
  {
    FirstQuotient(x);
    SecondFold(Fold(x));
    ThirdFold(Fold(Fold(x)));
  }

  /** Three folds bring any nine-limb number below 2^255; further folds change nothing. */
  lemma {:induction false} ThreeFoldsSuffice(x: nat, n: nat)
    requires x < Weight(9) && n >= 3
    ensures FoldTimes(x, n) == FoldTimes(x, 3) < TWO255
  {
    if n == 3 {
      assert FoldTimes(x, 1) == Fold(FoldTimes(x, 0));
      assert FoldTimes(x, 2) == Fold(FoldTimes(x, 1));
      ThreeFolds(x);
    } else {
      ThreeFoldsSuffice(x, n - 1);
      FoldFixed(FoldTimes(x, n - 1));
    }
  }

  lemma FoldFixed(x: nat)
    requires x < TWO255
    ensures Fold(x) == x
  {}

  /** Right shift of a nine-limb number by 255 bits. */
  method Shr255(x: seq<u64>) returns (r: seq<u64>)
    requires |x| == 9
    ensures |r| == 6 && Val(r) == Val(x) / TWO255
  {
    var y := x[3..9];
    var buf := new u64[6](_ => 0);
    for i := 0 to 6
      invariant ShiftedPrefix(y, buf[..i])
    {
      var lo := y[i] / B63;
      var hi := if i + 1 < 6 then y[i + 1] * 2 % B64 else 0;
      ghost var before := buf[..i];
      buf[i] := lo + hi;
      ShiftedNext(y, before, buf[..i + 1]);
    }
    r := buf[..];
    assert r == buf[..6] && y == y[..6];
    ShiftedQuotient(x, Val(r));
  }

  /** The limbs `r` written so far hold bits 63 .. 63 + 64 |r| of `y`. */
  ghost predicate ShiftedPrefix(y: seq<u64>, r: seq<u64>)
    requires 0 < |y| && |r| <= |y|
  {
    B63 * Val(r) + y[0] % B63 == Val(y[..|r|]) + LimbAt(y, |r|) % B63 * Weight(|r|)
  }

  function LimbAt(y: seq<u64>, i: nat): (x: u64) { if i < |y| then y[i] else 0 }

  lemma ShiftedNext(y: seq<u64>, r: seq<u64>, t: seq<u64>)
    requires |r| < |y| && ShiftedPrefix(y, r) && |t| == |r| + 1 && t[..|r|] == r
    requires t[|r|] == y[|r|] / B63 + LimbAt(y, |t|) * 2 % B64
    ensures ShiftedPrefix(y, t)
  {
    ValSnoc(y, |r|);
    ValPush(r, t);
    ShiftStep(y[|r|], LimbAt(y, |t|), Weight(|r|));
  }

  lemma ShiftedQuotient(x: seq<u64>, q: nat)
    requires |x| == 9 && B63 * q + x[3] % B63 == Val(x[3..9])
    ensures q == Val(x) / TWO255
  {
    assert x[3..9] == x[3..];
    DivModUnique(Val(x[3..]), B63, q, x[3] % B63);
    ValDrop(x, 3);
    WeightConstants();
    DivDiv(Val(x), Weight(3), B63);
  }

  lemma ShiftStep(y: u64, z: u64, w: int)
    ensures B63 * ((y / B63 + z * 2 % B64) * w) + y % B63 * w == y * w + z % B63 * (B64 * w)
  {
    assert z * 2 % B64 == 2 * (z % B63);
    assert y == B63 * (y / B63) + y % B63;
    var q, r, t := y / B63, y % B63, z % B63;
    assert B63 * ((q + 2 * t) * w) == (B63 * q) * w + t * (B64 * w);
    assert (B63 * q + r) * w == (B63 * q) * w + r * w;
  }

  /** Multiplication by the constant 19. */
  method Times19(b: seq<u64>) returns (r: seq<u64>)
    requires |b| == 6
    ensures |r| == 7 && Val(r) == 19 * Val(b)
  {
    var buf := new u64[7](_ => 0);
    var carry: u128 := 0;
    for i := 0 to 6
      invariant carry < 19
      invariant Val(buf[..i]) + carry * Weight(i) == 19 * Val(b[..i])
    {
      var bi: int := b[i];
      var s: u128 := carry + 19 * bi;
      ghost var before := buf[..i];
      buf[i] := s % B64;
      ValSnoc(b, i);
      ValPush(before, buf[..i + 1]);
      Times19Step(s, carry, bi, Weight(i));
      carry := s / B64;
    }
    ghost var before := buf[..6];
    buf[6] := carry;
    r := buf[..];
    ValPush(before, r);
    assert b == b[..6];
  }

  lemma Times19Step(s: int, carry: int, b: int, w: int)
    requires s == carry + 19 * b
    ensures s % B64 * w + s / B64 * (B64 * w) == carry * w + 19 * (b * w)
  {
    CarryStep(s, w);
    assert s * w == carry * w + (19 * b) * w;
  }

  lemma LowBits(v: seq<u64>)
    requires |v| == 9
    ensures Val([v[0], v[1], v[2], v[3] % B63]) == Val(v) % TWO255
  {
    var a := [v[0], v[1], v[2], v[3] % B63];
    ValSplit(v, 3);
    ValSnoc(a, 3);
    assert a[..4] == a && a[..3] == v[..3];
    ValCons(v[3..]);
    ValBound(v[..3]);
    WeightConstants();
    var w, t, q := Weight(3), v[3] % B63, v[3] / B63 + 2 * Val(v[3..][1..]);
    assert Val(v[3..]) == q * B63 + t;
    assert (q * B63 + t) * w == q * TWO255 + t * w;
    MulMono(t + 1, B63, w);
    assert (t + 1) * w == t * w + w;
    DivModUnique(Val(v), TWO255, q, Val(a));
  }

  /** One pass of the reduction loop. */
  method FoldLimbs(v: seq<u64>) returns (r: seq<u64>)
    requires |v| == 9
    ensures |r| == 9 && Val(r) == Fold(Val(v))
  {
    var a := [v[0], v[1], v[2], v[3] % B63];
    LowBits(v);
    var b := Shr255(v);
    var prod := Times19(b);
    var a9, p9 := a + [0, 0, 0, 0, 0], prod + [0, 0];
    assert Val(a9) == Val(a) by { ValZeroTail(a9, 4); assert a9[..4] == a; }
    assert Val(p9) == Val(prod) by { ValZeroTail(p9, 7); assert p9[..7] == prod; }
    var c;
    r, c := AddLimbs(a9, p9);
    ValBound(a);
    ValBound(prod);
    assert Weight(4) + Weight(7) < Weight(9);
    NoCarry(Val(r), c, Weight(9));
  }

  /** Reduction of the low nine limbs of an arbitrary limb array to the representative in [0, p). */
  method Reduce(limbs: seq<u64>) returns (r: FieldElement)
    ensures r.Canonical()
    ensures r.Value() == Val(limbs[..if |limbs| < 9 then |limbs| else 9]) % PRIME
  {
    var n := if |limbs| < 9 then |limbs| else 9;
    var v := limbs[..n] + seq(9 - n, _ => 0);
    ghost var x := Val(v);
    assert x == Val(limbs[..n]) by { ValZeroTail(v, n); assert v[..n] == limbs[..n]; }
    ValBound(v);
    for k := 0 to 5
      invariant |v| == 9 && Val(v) == FoldTimes(x, k)
    {
      v := FoldLimbs(v);
    }
    ThreeFoldsSuffice(x, 5);
    FoldTimesCongruent(x, 5);
    LowLimbs(v);
    ConstantValues();
    var t := SubtractTwice(v[..4], P);
    r := FieldElement(t);
  }

  lemma ModBelowTwice(x: nat, m: nat)
    requires 0 < m && x < 2 * m
    ensures x % m == if x < m then x else x - m
  {
    DivModUnique(x, m, if x < m then 0 else 1, if x < m then x else x - m);
  }

  /** The two conditional subtractions that end the reduction; the second one is never taken. */
  method SubtractTwice(v: seq<u64>, p: seq<u64>) returns (t: seq<u64>)
    requires |v| == 4 && |p| == 4 && Val(v) < 2 * Val(p)
    ensures |t| == 4 && Val(t) < Val(p) && Val(t) == Val(v) % Val(p)
  {
    ModBelowTwice(Val(v), Val(p));
    t := v;
    var ge := GreaterEq(t, p);
    if ge {
      var borrow;
      t, borrow := SubLimbs(t, p);
      NoBorrow(t, borrow);
    }
    ge := GreaterEq(t, p);
    if ge {
      assert false;
    }
  }

  /** A nine-limb number below 2^255 is its four low limbs. */
  lemma LowLimbs(v: seq<u64>)
    requires |v| == 9 && Val(v) < TWO255
    ensures Val(v[..4]) == Val(v)
  {
    ValSplit(v, 4);
    WeightConstants();
    if Val(v[4..]) > 0 {
      MulMono(1, Val(v[4..]), Weight(4));
    }
  }

  /** Multiplication by a bit. */
  method ScaleLimbs(a: seq<u64>, b: u64) returns (r: seq<u64>)
    requires |a| == 4 && b < 2
    ensures |r| == 8 && Val(r) == if b == 1 then Val(a) else 0
  {
    var buf := new u64[8](_ => 0);
    var carry: u128 := 0;
    for i := 0 to 4
      invariant carry == 0
      invariant forall k :: 0 <= k < i ==> buf[k] == if b == 1 then a[k] else 0
      invariant forall k :: i <= k < 8 ==> buf[k] == 0
    {
      TimesBit(a[i], b);
      var s: u128 := a[i] * b + carry;
      buf[i] := s % B64;
      carry := s / B64;
    }
    buf[4] := carry;
    r := buf[..];
    if b == 1 {
      ValZeroTail(r, 4);
      assert r[..4] == a;
    } else {
      ValZeros(r);
    }
  }

  // ----- field elements -----

  datatype FieldElement = FieldElement(limbs: seq<u64>) {

    ghost function Value(): nat { Val(limbs) }

    /** The representation invariant: four limbs holding a number below p. */
    ghost predicate Canonical() { |limbs| == 4 && Value() < PRIME }

    method Add(other: FieldElement) returns (r: FieldElement)
      requires |limbs| == 4 && |other.limbs| == 4
      ensures r.Canonical() && r.Value() == (Value() + other.Value()) % PRIME
    {
      var sum, carry := AddLimbs(limbs, other.limbs);
      var wide := sum + [carry, 0, 0, 0];
      assert Val(wide) == Val(sum) + carry * Weight(4) by {
        ValZeroTail(wide, 5);
        ValSnoc(wide, 4);
        assert wide[..4] == sum;
      }
      r := Reduce(wide);
      assert wide[..8] == wide;
    }

    method Sub(other: FieldElement) returns (r: FieldElement)
      requires Canonical() && other.Canonical()
      ensures r.Canonical() && r.Value() == (Value() - other.Value()) % PRIME
    {
      var d, borrow := SubLimbs(limbs, other.limbs);
      ConstantValues();
      WeightConstants();
      if borrow == 1 {
        var carry;
        d, carry := AddLimbs(d, P);
        ValBound(d);
        DivModMul(Value() - other.Value(), 1, PRIME);
      }
      r := Reduce(d);
      assert d[..4] == d;
    }

    method Mul(other: FieldElement) returns (r: FieldElement)
      requires |limbs| == 4 && |other.limbs| == 4
      ensures r.Canonical() && r.Value() == Value() * other.Value() % PRIME
    {
      var wide := MulLimbs(limbs, other.limbs);
      r := Reduce(wide);
      assert wide[..8] == wide;
    }

    method Square() returns (r: FieldElement)
      requires |limbs| == 4
      ensures r.Canonical() && r.Value() == Value() * Value() % PRIME
    {
      r := Mul(this);
    }

    method Neg() returns (r: FieldElement)
      requires Canonical()
      ensures r.Canonical() && r.Value() == (PRIME - Value()) % PRIME
    {
      var zero := FieldElement([0, 0, 0, 0]);
      ValZeros(zero.limbs);
      r := zero.Sub(this);
      DivModMul(0 - Value(), 1, PRIME);
    }

    /** Multiplication by the low bit of `m`. */
    method Scale(m: u64) returns (r: FieldElement)
      requires Canonical()
      ensures r.Canonical() && r.Value() == if m % 2 == 1 then Value() else 0
    {
      var wide := ScaleLimbs(limbs, m % 2);
      r := Reduce(wide);
      assert wide[..8] == wide;
    }

    /** Square-and-multiply over all 256 exponent bits, most significant first. */
    method Power(exp: seq<u64>) returns (r: FieldElement)
      requires |limbs| == 4 && |exp| == 4
      ensures r.Canonical() && r.Value() == PowMod(Value(), Val(exp))
    {
      r := FieldElement([1, 0, 0, 0]);
      OneIsPowerZero(r, Value());
      NoHighBits(exp);
      var bit := 64 * |exp|;
      while bit > 0
        invariant 0 <= bit <= 64 * |exp|
        invariant r.Canonical()
        invariant r.Value() == PowMod(Value(), Shr(Val(exp), bit))
      {
        bit := bit - 1;
        NextExponent(exp, bit);
        r := PowerStep(this, r, Bit(exp[bit / 64], bit % 64), Shr(Val(exp), bit + 1));
      }
    }

    /** The inverse of every element but zero, which is sent to zero. */
    method Invert() returns (r: FieldElement)
      requires |limbs| == 4
      ensures r.Canonical() && r.Value() == PowMod(Value(), PRIME - 2)
      ensures Value() * r.Value() % PRIME == if Value() % PRIME == 0 then 0 else 1
    {
      ConstantValues();
      r := Power(EXP);
      PrimeIsPrime();
      PowerInverts(Value(), PRIME);
    }
  }

  lemma PrimeIsPrime()
    ensures Prime(PRIME)
  {
    PrimeCertificates.TopIsPrime();
  }

  /** A product is zero only where a factor is. */
  lemma NoZeroDivisors(a: nat, b: nat)
    ensures a * b % PRIME == 0 <==> a % PRIME == 0 || b % PRIME == 0
  {
    PrimeIsPrime();
    var p := PRIME;
    ModMul(a, b, p);
    if a * b % p == 0 && a % p != 0 {
      EuclidsLemma(p, a, b);
    }
  }

  /** An element times its inverse is the element one, limb for limb. */
  method InverseRoundTrip(a: FieldElement) returns (one: FieldElement)
    requires a.Canonical() && a.Value() != 0
    ensures one.limbs == [1, 0, 0, 0]
  {
    var i := a.Invert();
    one := a.Mul(i);
    DivModUnique(a.Value(), PRIME, 0, a.Value());
    Val4([1, 0, 0, 0]);
    ValInjective(one.limbs, [1, 0, 0, 0]);
  }

  /** One step of square-and-multiply: from the power `q` to the power `2 q + b`. */
  method PowerStep(base: FieldElement, acc: FieldElement, b: int, ghost q: nat) returns (r: FieldElement)
    requires |base.limbs| == 4 && acc.Canonical() && (b == 0 || b == 1)
    requires acc.Value() == PowMod(base.Value(), q)
    ensures r.Canonical() && r.Value() == PowMod(base.Value(), 2 * q + b)
  {
    r := acc.Square();
    SquareStep(base.Value(), q, PRIME);
    if b == 1 {
      r := r.Mul(base);
      MultiplyStep(base.Value(), 2 * q, PRIME);
    }
  }

  /** `a^n` modulo p. */
  function PowMod(a: nat, n: nat): (r: nat) { Exp(a, n) % PRIME }

  lemma OneIsPowerZero(one: FieldElement, a: nat)
    requires one.limbs == [1, 0, 0, 0]
    ensures one.Canonical() && one.Value() == PowMod(a, 0)
  {
    Val4(one.limbs);
  }

  lemma NextExponent(exp: seq<u64>, bit: nat)
    requires bit < 64 * |exp|
    ensures Shr(Val(exp), bit) == 2 * (Shr(Val(exp), bit + 1)) + Bit(exp[bit / 64], bit % 64)
  {
    HalvingStep(Val(exp), bit);
    BitOfVal(exp, bit / 64, bit % 64);
  }

  lemma TimesBit(x: int, b: int)
    requires b == 0 || b == 1
    ensures x * b == if b == 1 then x else 0
  {}

  /** Canonical elements are equal exactly when they represent the same number. */
  lemma CanonicalIsUnique(a: FieldElement, b: FieldElement)
    requires a.Canonical() && b.Canonical()
    ensures a == b <==> a.Value() % PRIME == b.Value() % PRIME
  {
    if a.Value() == b.Value() { ValInjective(a.limbs, b.limbs); }
  }

  /** Adding and then subtracting an element gives back the same limbs. */
  method AddSubRoundTrip(a: FieldElement, b: FieldElement) returns (r: FieldElement)
    requires a.Canonical() && b.Canonical()
    ensures r == a
  {
    var t := a.Add(b);
    r := t.Sub(b);
    assert r.Value() == a.Value() by {
      ModBelowTwice(a.Value() + b.Value(), PRIME);
      DivModMul(a.Value() - PRIME, 1, PRIME);
    }
    CanonicalIsUnique(r, a);
  }

  /** Multiplication distributes over addition, limb for limb. */
  method Distributivity(a: FieldElement, b: FieldElement, c: FieldElement) returns (l: FieldElement, r: FieldElement)
    requires a.Canonical() && b.Canonical() && c.Canonical()
    ensures l == r
  {
    var s := b.Add(c);
    l := a.Mul(s);
    var x := a.Mul(b);
    var y := a.Mul(c);
    r := x.Add(y);
    DistributeMod(a.Value(), b.Value(), c.Value(), PRIME);
    CanonicalIsUnique(l, r);
  }

  lemma DistributeMod(a: nat, b: nat, c: nat, m: nat)
    requires m > 0
    ensures a * ((b + c) % m) % m == (a * b % m + a * c % m) % m
  {
    ModMul(a, b + c, m);
    var x, y := a * b, a * c;
    assert a * (b + c) == x + y;
    assert x + y == (x % m + y % m) + (x / m + y / m) * m by {
      assert (x / m + y / m) * m == x / m * m + y / m * m;
    }
    DivModMul(x % m + y % m, x / m + y / m, m);
  }

  /** Multiplication is associative, limb for limb. */
  method Associativity(a: FieldElement, b: FieldElement, c: FieldElement) returns (l: FieldElement, r: FieldElement)
    requires a.Canonical() && b.Canonical() && c.Canonical()
    ensures l == r
  {
    var x := a.Mul(b);
    l := x.Mul(c);
    var y := b.Mul(c);
    r := a.Mul(y);
    AssociateMod(a.Value(), b.Value(), c.Value(), PRIME);
    CanonicalIsUnique(l, r);
  }

  lemma AssociateMod(a: nat, b: nat, c: nat, m: nat)
    requires m > 0
    ensures a * b % m * c % m == a * (b * c % m) % m
  {
    ModMul(a, b * c, m);
    ModMul(c, a * b, m);
    assert a * b % m * c == c * (a * b % m) && c * (a * b) == a * (b * c);
  }
}
