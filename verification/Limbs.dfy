/**
 Machine words and little-endian multi-precision numbers.

 A machine word is a subset type over `int`, so every assignment to a word variable is a proof
 that the source's operation does not overflow; truncating casts and shifts are written out as
 `%` and `/` by a power of two.
 */
module Limbs {

  const B64: int := 0x1_0000_0000_0000_0000
  const B63: int := 0x8000_0000_0000_0000

  type u64 = x: int | 0 <= x < 0x1_0000_0000_0000_0000
  type u128 = x: int | 0 <= x < 0x1_0000_0000_0000_0000_0000_0000_0000_0000
  type i128 = x: int | -0x8000_0000_0000_0000_0000_0000_0000_0000 <= x < 0x8000_0000_0000_0000_0000_0000_0000_0000

  function Pow2(n: nat): (r: nat)
    ensures r > 0
  {
    if n == 0 then 1 else 2 * Pow2(n - 1)
  }

  /** The weight of limb `i`: `2^(64 i)`. */
  function Weight(i: nat): (w: nat)
    ensures w > 0
  {
    if i == 0 then 1 else B64 * Weight(i - 1)
  }

  /** The number a little-endian limb sequence stands for. */
  function Val(s: seq<u64>): (v: nat)
  {
    if s == [] then 0 else Val(s[..|s| - 1]) + s[|s| - 1] * Weight(|s| - 1)
  }

  lemma DivNonNeg(v: nat, d: nat)
    requires d > 0
    ensures v / d >= 0
  {}

  function Shr(v: nat, n: nat): (q: nat)
  {
    DivNonNeg(v, Pow2(n));
    v / Pow2(n)
  }

  /** Bit `k` of a word (`(x >> k) & 1`). */
  function Bit(x: u64, k: nat): (b: int)
    ensures b == 0 || b == 1
  {
    x / Pow2(k) % 2
  }

  lemma MulMono(a: nat, b: nat, c: nat)
    requires a <= b
    ensures a * c <= b * c
  {}

  /** A total below the top weight leaves nothing to carry out. */
  lemma NoCarry(v: nat, c: nat, w: nat)
    requires v + c * w < w
    ensures c == 0
  {
    if c > 0 { MulMono(1, c, w); }
  }

  /** Quotient and remainder are the only pair with these two properties. */
  lemma DivModUnique(x: int, d: int, q: int, r: int)
    requires d > 0 && 0 <= r < d && x == q * d + r
    ensures x / d == q && x % d == r
  {
    var k := x / d - q;
    assert k * d == r - x % d && (-k) * d == x % d - r;
    if k >= 1 {
      MulMono(1, k, d);
    } else if k <= -1 {
      MulMono(1, -k, d);
    }
  }

  lemma DivModMul(x: int, q: int, d: int)
    requires d > 0
    ensures (x + q * d) % d == x % d
    ensures (x + q * d) / d == x / d + q
  {
    assert x == x / d * d + x % d;
    assert (x / d + q) * d == x / d * d + q * d;
    DivModUnique(x + q * d, d, x / d + q, x % d);
  }

  lemma ModMulRight(a: int, b: int, m: int)
    requires m > 0
    ensures a * (b % m) % m == a * b % m
  {
    var q, r := b / m, b % m;
    assert a * b == a * r + (a * q) * m by {
      assert b == q * m + r;
      assert a * (q * m + r) == a * (q * m) + a * r;
      assert a * (q * m) == (a * q) * m;
    }
    DivModMul(a * r, a * q, m);
  }

  /** A product may be reduced factor by factor. */
  lemma ModMul(a: int, b: int, m: int)
    requires m > 0
    ensures (a % m) * (b % m) % m == a * b % m
    ensures a * (b % m) % m == a * b % m
  {
    ModMulRight(a, b, m);
    ModMulRight(b % m, a, m);
    Commute(b % m, a);
    Commute(b % m, a % m);
  }

  lemma Commute(a: int, b: int)
    ensures a * b == b * a
  {}

  /** Dividing twice is dividing by the product. */
  lemma DivDiv(x: nat, a: nat, b: nat)
    requires a > 0 && b > 0
    ensures a * b > 0
    ensures x / a / b == x / (a * b)
  {
    var q, r := x / a, x % a;
    var q2, r2 := q / b, q % b;
    assert x == q * a + r && q == q2 * b + r2;
    assert a * b > 0 by { MulMono(1, a, b); }
    assert x == q2 * (a * b) + (r2 * a + r) by {
      assert (q2 * b + r2) * a == q2 * b * a + r2 * a;
      assert q2 * b * a == q2 * (a * b);
    }
    assert r2 * a + r < a * b by {
      MulMono(r2 + 1, b, a);
      assert (r2 + 1) * a == r2 * a + a;
    }
    DivModUnique(x, a * b, q2, r2 * a + r);
  }

  lemma {:induction false} Pow2Add(m: nat, n: nat)
    ensures Pow2(m + n) == Pow2(m) * Pow2(n)
  {
    if m > 0 {
      Pow2Add(m - 1, n);
      Doubled(Pow2(m - 1), Pow2(n));
    }
  }

  lemma Doubled(a: int, b: int)
    ensures 2 * (a * b) == (2 * a) * b
  {}

  lemma Pow2At32()
    ensures Pow2(32) == 0x1_0000_0000
  {
    assert Pow2(8) == 0x100;
    Pow2Add(8, 8);
    Pow2Add(16, 16);
  }

  lemma Pow2At64()
    ensures Pow2(63) == B63 && Pow2(64) == B64
  {
    Pow2At32();
    Pow2Add(32, 32);
    assert Pow2(64) == 2 * Pow2(63);
  }

  lemma {:induction false} WeightIsPow2(i: nat)
    ensures Weight(i) == Pow2(64 * i)
  {
    if i > 0 {
      WeightIsPow2(i - 1);
      Pow2At64();
      Pow2Add(64, 64 * (i - 1));
    }
  }

  /** The value of a prefix grows by one weighted limb. */
  lemma ValSnoc(s: seq<u64>, i: nat)
    requires i < |s|
    ensures Val(s[..i + 1]) == Val(s[..i]) + s[i] * Weight(i)
  {
    assert s[..i + 1][..i] == s[..i];
  }

  /** Writing the next limb of a buffer whose first limbs are `s`. */
  lemma ValPush(s: seq<u64>, t: seq<u64>)
    requires |t| == |s| + 1 && t[..|s|] == s
    ensures Val(t) == Val(s) + t[|s|] * Weight(|s|)
  {}

  lemma {:induction false} ValBound(s: seq<u64>)
    ensures Val(s) < Weight(|s|)
  {
    if s != [] {
      var n := |s| - 1;
      ValBound(s[..n]);
      var x: int := s[n];
      MulMono(x + 1, B64, Weight(n));
      assert (x + 1) * Weight(n) == x * Weight(n) + Weight(n);
    }
  }

  lemma Regroup(w: int, h: int, x: int, v: int)
    ensures (h + x * v) * w == h * w + x * (w * v)
  {
    assert (x * v) * w == x * (w * v);
  }

  /** Splitting a number at limb `k`. */
  lemma {:induction false} ValSplit(s: seq<u64>, k: nat)
    requires k <= |s|
    ensures Val(s) == Val(s[..k]) + Val(s[k..]) * Weight(k)
    decreases |s|
  {
    if |s| == k {
      assert s[..k] == s && s[k..] == [];
    } else {
      var n := |s| - 1;
      var t := s[..n];
      ValSplit(t, k);
      assert t[..k] == s[..k] && s[k..][..n - k] == t[k..];
      WeightAdd(k, n - k);
      Regroup(Weight(k), Val(t[k..]), s[n], Weight(n - k));
    }
  }

  lemma {:induction false} WeightAdd(m: nat, n: nat)
    ensures Weight(m + n) == Weight(m) * Weight(n)
  {
    if m > 0 {
      WeightAdd(m - 1, n);
      assert Weight(m + n) == B64 * Weight(m - 1 + n);
    }
  }

  /** Changing one limb changes the value by the weighted difference. */
  lemma {:induction false} ValUpdate(s: seq<u64>, k: nat, x: u64)
    requires k < |s|
    ensures Val(s[k := x]) == Val(s) + (x - s[k]) * Weight(k)
    decreases |s|
  {
    var n := |s| - 1;
    if k == n {
      assert s[k := x][..n] == s[..n];
      assert x * Weight(k) == s[k] * Weight(k) + (x - s[k]) * Weight(k);
    } else {
      ValUpdate(s[..n], k, x);
      assert s[k := x][..n] == s[..n][k := x];
    }
  }

  lemma {:induction false} ValZeros(s: seq<u64>)
    requires forall i :: 0 <= i < |s| ==> s[i] == 0
    ensures Val(s) == 0
  {
    if s != [] { ValZeros(s[..|s| - 1]); }
  }

  lemma ValZeroTail(s: seq<u64>, k: nat)
    requires k <= |s| && forall i :: k <= i < |s| ==> s[i] == 0
    ensures Val(s) == Val(s[..k])
  {
    ValSplit(s, k);
    ValZeros(s[k..]);
  }

  /** Numbers of the same length with the same value have the same limbs. */
  lemma {:induction false} ValInjective(s: seq<u64>, t: seq<u64>)
    requires |s| == |t| && Val(s) == Val(t)
    ensures s == t
  {
    if s != [] {
      var n := |s| - 1;
      ValBound(s[..n]);
      ValBound(t[..n]);
      DivModUnique(Val(s), Weight(n), s[n], Val(s[..n]));
      DivModUnique(Val(t), Weight(n), t[n], Val(t[..n]));
      ValInjective(s[..n], t[..n]);
      assert s == s[..n] + [s[n]] && t == t[..n] + [t[n]];
    }
  }

  /** Limb `l` and everything above it, as a quotient. */
  lemma ValDrop(s: seq<u64>, l: nat)
    requires l <= |s|
    ensures Val(s) / Weight(l) == Val(s[l..])
  {
    ValSplit(s, l);
    ValBound(s[..l]);
    DivModUnique(Val(s), Weight(l), Val(s[l..]), Val(s[..l]));
  }

  lemma ValCons(s: seq<u64>)
    requires s != []
    ensures Val(s) == s[0] + B64 * Val(s[1..])
  {
    ValSplit(s, 1);
    assert s[..1][..0] == [] && Weight(0) == 1 && Weight(1) == B64;
    assert Val(s[..1]) == Val(s[..1][..0]) + s[0] * Weight(0);
  }

  lemma SwapFactors(p: int, q: int, h: int)
    ensures (2 * (p * q)) * h == (2 * (h * q)) * p
  {}

  /** Adding multiples of 2^64 does not change the low 64 bits. */
  lemma BitOfLow(x: u64, hi: nat, k: nat)
    requires k < 64
    ensures Bit(x, k) == (x + B64 * hi) / Pow2(k) % 2
  {
    var h := hi * Pow2(63 - k);
    assert B64 * hi == (2 * h) * Pow2(k) by {
      Pow2At64();
      Pow2Add(k, 63 - k);
      SwapFactors(Pow2(k), Pow2(63 - k), hi);
    }
    DivModMul(x, 2 * h, Pow2(k));
    DivModMul(x / Pow2(k), h, 2);
  }

  /** Shifting right by whole limbs and then by `k` bits. */
  lemma ShiftSplit(s: seq<u64>, l: nat, k: nat)
    requires l <= |s|
    ensures Val(s) / Pow2(64 * l + k) == Val(s[l..]) / Pow2(k)
  {
    ValDrop(s, l);
    WeightIsPow2(l);
    Pow2Add(64 * l, k);
    DivDiv(Val(s), Weight(l), Pow2(k));
  }

  /** Reading bit `n` limb by limb reads bit `n` of the number. */
  lemma BitOfVal(s: seq<u64>, l: nat, k: nat)
    requires l < |s| && k < 64
    ensures Bit(s[l], k) == Shr(Val(s), 64 * l + k) % 2
  {
    ShiftSplit(s, l, k);
    ValCons(s[l..]);
    BitOfLow(s[l], Val(s[l..][1..]), k);
  }

  lemma NoHighBits(s: seq<u64>)
    ensures Shr(Val(s), 64 * |s|) == 0 && Shr(Val(s), 0) == Val(s)
  {
    ValBound(s);
    WeightIsPow2(|s|);
    DivModUnique(Val(s), Pow2(64 * |s|), 0, Val(s));
  }

  /** Binary digits are read from the top: each step doubles and adds the next bit. */
  lemma HalvingStep(v: nat, n: nat)
    ensures Shr(v, n) == 2 * Shr(v, n + 1) + Shr(v, n) % 2
  {
    DivDiv(v, Pow2(n), 2);
    assert Pow2(n + 1) == Pow2(n) * 2;
  }
}
