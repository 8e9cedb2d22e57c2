/** Bits of machine words under shifts, for the multi-word bitmap of the replay window. */
module Bits {
  import opened Limbs

  lemma ParityIgnoresMultiples(x: nat, q: nat, p: nat, t: nat)
    requires p > 0
    ensures (x + q * (2 * (p * t))) / p % 2 == x / p % 2
  {
    var h := q * t;
    assert q * (2 * (p * t)) == (2 * h) * p;
    DivModMul(x, 2 * h, p);
    DivModMul(x / p, h, 2);
  }

  /** Bits below position `n` do not see multiples of `2^n`. */
  lemma LowBitsOnly(z: nat, x: nat, q: nat, n: nat, k: nat)
    requires k < n && z == x + q * Pow2(n)
    ensures Shr(z, k) % 2 == Shr(x, k) % 2
  {
    Pow2Add(k, n - 1 - k);
    ParityIgnoresMultiples(x, q, Pow2(k), Pow2(n - 1 - k));
  }

  lemma ShrShr(x: nat, m: nat, k: nat)
    ensures Shr(Shr(x, m), k) == Shr(x, m + k)
  {
    Pow2Add(m, k);
    DivDiv(x, Pow2(m), Pow2(k));
  }

  /** Bits at or above position `m` do not see a summand below `2^m`. */
  lemma HighBitsOnly(z: nat, x: nat, h: nat, m: nat, k: nat)
    requires x < Pow2(m) && z == x + h * Pow2(m)
    ensures Shr(z, m + k) == Shr(h, k)
  {
    DivModUnique(z, Pow2(m), h, x);
    ShrShr(z, m, k);
  }

  lemma ShrBound(x: nat, m: nat, n: nat)
    requires x < Pow2(m + n)
    ensures Shr(x, n) < Pow2(m)
  {
    Pow2Add(m, n);
    var q := Shr(x, n);
    assert q * Pow2(n) <= x;
    if q >= Pow2(m) { MulMono(Pow2(m), q, Pow2(n)); }
  }

  /** Bit `k` of `x >> s`. */
  lemma BitOfShifted(x: u64, s: nat, k: nat)
    requires s < 64 && k < 64
    ensures 0 <= Shr(x, s) < B64
    ensures Bit(Shr(x, s), k) == if k + s < 64 then Bit(x, k + s) else 0
  {
    Pow2At64();
    ShrBound(x, 64 - s, s);
    Pow2Add(64 - s, s);
    MulMono(1, Pow2(s), Pow2(64 - s));
    ShrShr(x, s, k);
    if k + s >= 64 {
      DivModUnique(x, Pow2(64), 0, x);
      ShrShr(x, 64, k + s - 64);
      DivModUnique(0, Pow2(k + s - 64), 0, 0);
    }
  }

  lemma ModOfMultiple(y: nat, a: nat, b: nat)
    requires a > 0 && b > 0
    ensures a * b > 0 && y * b % (a * b) == y % a * b
    ensures 0 <= y % a * b <= a * b - b
  {
    var q, h := y / a, y % a;
    MulMono(1, a, b);
    assert y * b == q * (a * b) + h * b by {
      assert (q * a + h) * b == q * a * b + h * b;
    }
    MulMono(h + 1, a, b);
    assert (h + 1) * b == h * b + b;
    DivModUnique(y * b, a * b, q, h * b);
  }

  /** `y << (64 - s)` truncated to a word keeps the low `s` bits of `y`. */
  lemma ShiftedLeft(y: u64, s: nat)
    requires 0 < s < 64
    ensures y * Pow2(64 - s) % B64 == y % Pow2(s) * Pow2(64 - s) <= B64 - Pow2(64 - s)
  {
    Pow2At64();
    Pow2Add(s, 64 - s);
    ModOfMultiple(y, Pow2(s), Pow2(64 - s));
  }

  /** `(x >> s) | (y << (64 - s))`: the two parts share no bit, so `|` is `+`. */
  function Funnel(x: u64, y: u64, s: nat): (z: u64)
    requires 0 < s < 64
  {
    FunnelFits(x, y, s);
    Shr(x, s) + y * Pow2(64 - s) % B64
  }

  lemma FunnelFits(x: u64, y: u64, s: nat)
    requires 0 < s < 64
    ensures Shr(x, s) < Pow2(64 - s)
    ensures 0 <= Shr(x, s) + y * Pow2(64 - s) % B64 < B64
  {
    Pow2At64();
    ShrBound(x, 64 - s, s);
    ShiftedLeft(y, s);
  }

  lemma BitOfFunnel(x: u64, y: u64, s: nat, k: nat)
    requires 0 < s < 64 && k < 64
    ensures Bit(Funnel(x, y, s), k) == if k + s < 64 then Bit(x, k + s) else Bit(y, k + s - 64)
  {
    var m, lo, h := 64 - s, Shr(x, s), y % Pow2(s);
    FunnelFits(x, y, s);
    ShiftedLeft(y, s);
    var z := Funnel(x, y, s);
    if k < m {
      LowBitsOnly(z, lo, h, m, k);
      ShrShr(x, s, k);
    } else {
      HighBitsOnly(z, lo, h, m, k - m);
      LowPartBits(y, s, k - m);
    }
  }

  lemma LowPartBits(y: nat, s: nat, k: nat)
    requires k < s
    ensures Shr(y % Pow2(s), k) % 2 == Shr(y, k) % 2
  {
    AddUnit(y, Pow2(s));
    LowBitsOnly(y, y % Pow2(s), Shr(y, s), s, k);
  }

  lemma AddUnit(x: nat, p: nat)
    requires p > 0
    ensures x == x % p + x / p * p && x + p == x % p + (x / p + 1) * p
  {
    assert (x / p + 1) * p == x / p * p + p;
  }

  lemma BelowMultiple(x: nat, p: nat, t: nat)
    requires p > 0 && x / p + 2 <= t
    ensures x + p < t * p
  {
    AddUnit(x, p);
    MulMono(x / p + 2, t, p);
    assert (x / p + 2) * p == (x / p + 1) * p + p;
  }

  lemma EvenBelow(h: nat, t: nat)
    requires h % 2 == 0 && h < 2 * t
    ensures h + 2 <= 2 * t
  {}

  lemma SetFits(x: u64, b: nat)
    requires b < 64 && Bit(x, b) == 0
    ensures x + Pow2(b) < B64
  {
    Pow2At64();
    Pow2Add(64 - b, b);
    assert Shr(x, b) + 2 <= Pow2(64 - b) by {
      ShrBound(x, 64 - b, b);
      EvenBelow(Shr(x, b), Pow2(63 - b));
    }
    BelowMultiple(x, Pow2(b), Pow2(64 - b));
  }

  /** Setting a clear bit changes that bit and no other. */
  lemma BitOfSet(x: u64, b: nat, k: nat)
    requires b < 64 && k < 64 && Bit(x, b) == 0
    ensures x + Pow2(b) < B64
    ensures Bit(x + Pow2(b), k) == if k == b then 1 else Bit(x, k)
  {
    SetFits(x, b);
    AddUnit(x, Pow2(b));
    var hi, lo := Shr(x, b), x % Pow2(b);
    if k < b {
      LowBitsOnly(x, lo, hi, b, k);
      LowBitsOnly(x + Pow2(b), lo, hi + 1, b, k);
    } else {
      HighBitsOnly(x, lo, hi, b, k - b);
      HighBitsOnly(x + Pow2(b), lo, hi + 1, b, k - b);
      EvenPlusOne(hi, k - b);
    }
  }

  lemma EvenPlusOne(h: nat, k: nat)
    requires h % 2 == 0
    ensures Shr(h + 1, k) % 2 == if k == 0 then 1 else Shr(h, k) % 2
  {
    if k > 0 {
      assert Shr(h, 1) == Shr(h + 1, 1) by { assert Pow2(1) == 2 * Pow2(0); }
      ShrShr(h, 1, k - 1);
      ShrShr(h + 1, 1, k - 1);
    }
  }
}
