/** Primes: Bezout, Euclid's lemma, Fermat's little theorem, and Pocklington's criterion for primality. */
module Primes {
  import opened Limbs
  import opened Powers

  predicate Prime(n: nat)
  {
    n > 1 && forall d :: 1 < d < n ==> n % d != 0
  }

  // ----- Divisibility -----

  lemma MultipleIsZero(x: int, q: int, d: int)
    requires d > 0 && x == q * d
    ensures x % d == 0
  {
    DivModUnique(x, d, q, 0);
  }

  /** A divisor of a divisor divides. */
  lemma DividesThrough(d: nat, m: nat, x: int)
    requires d > 0 && m > 0 && m % d == 0 && x % m == 0
    ensures x % d == 0
  {
    var k, l := x / m, m / d;
    assert x == k * m && m == l * d;
    assert k * (l * d) == (k * l) * d;
    MultipleIsZero(x, k * l, d);
  }

  /** Congruence modulo a multiple gives congruence modulo the divisor. */
  lemma CongruentDown(a: int, b: int, m: nat, d: nat)
    requires d > 0 && m > 0 && m % d == 0 && a % m == b % m
    ensures a % d == b % d
  {
    assert (a - b) % m == 0 by {
      assert a == (a / m) * m + a % m && b == (b / m) * m + b % m;
      assert a - b == (a / m - b / m) * m;
      MultipleIsZero(a - b, a / m - b / m, m);
    }
    DividesThrough(d, m, a - b);
    var q := (a - b) / d;
    assert a == b + q * d;
    DivModMul(b, q, d);
  }

  function Gcd(a: nat, b: nat): (g: nat)
    decreases b
  {
    if b == 0 then a else Gcd(b, a % b)
  }

  lemma {:induction false} GcdDivides(a: nat, b: nat)
    requires a > 0 || b > 0
    ensures Gcd(a, b) > 0 && a % Gcd(a, b) == 0 && b % Gcd(a, b) == 0
    decreases b
  {
    if b > 0 {
      GcdDivides(b, a % b);
      DividesSum(a, b, Gcd(b, a % b));
    }
  }

  lemma DividesSum(a: nat, b: nat, g: nat)
    requires g > 0 && b > 0 && b % g == 0 && (a % b) % g == 0
    ensures a % g == 0
  {
    var r, q := a % b, a / b;
    var k, l := b / g, r / g;
    assert a == q * b + r && b == k * g && r == l * g;
    assert q * (k * g) == (q * k) * g;
    assert (q * k) * g + l * g == (q * k + l) * g;
    MultipleIsZero(a, q * k + l, g);
  }

  lemma {:induction false} Bezout(a: nat, b: nat) returns (x: int, y: int)
    ensures a * x + b * y == Gcd(a, b)
    decreases b
  {
    if b == 0 {
      x, y := 1, 0;
    } else {
      var u, v := Bezout(b, a % b);
      x, y := v, u - (a / b) * v;
      BezoutStep(a, b, a / b, u, v);
    }
  }

  lemma BezoutStep(a: int, b: int, q: int, u: int, v: int)
    ensures a * v + b * (u - q * v) == b * u + (a - q * b) * v
  {}

  /** A prime that does not divide a number has no factor in common with it. */
  lemma PrimeCoprime(q: nat, m: nat)
    requires Prime(q) && m % q != 0
    ensures Gcd(q, m) == 1
  {
    GcdDivides(q, m);
    DivisorAtMost(Gcd(q, m), q);
  }

  lemma DivisorAtMost(d: nat, n: nat)
    requires d > 0 && n > 0 && n % d == 0
    ensures d <= n
  {
    if d > n {
      DivModUnique(n, d, 0, n);
      assert false;
    }
  }

  /** Something to multiply by to get one, modulo a number without a common factor. */
  lemma InverseMod(a: nat, m: nat) returns (s: nat, t: nat)
    requires m > 0 && Gcd(a, m) == 1 && a > 0
    ensures s * a == 1 + t * m
  {
    var x, y := Bezout(a, m);
    s := x % m + m;
    var k := x / m;
    assert x == k * m + x % m;
    InverseStep(a, m, x, y, k, x % m);
    t := a - y - k * a;
    MulMono(1, s, a);
    if t < 0 { NegativeProduct(t, m); }
  }

  lemma InverseStep(a: int, m: int, x: int, y: int, k: int, r: int)
    requires a * x + m * y == 1 && x == k * m + r
    ensures (r + m) * a == 1 + (a - y - k * a) * m
  {
    assert a * x == a * (k * m) + a * r;
    assert a * (k * m) == (k * a) * m;
  }

  lemma NegativeProduct(t: int, m: int)
    requires t < 0 && m > 0
    ensures t * m <= -m
  {}

  /** A prime that divides a product divides a factor. */
  lemma EuclidsLemma(q: nat, a: nat, b: nat)
    requires Prime(q) && a * b % q == 0 && a % q != 0
    ensures b % q == 0
  {
    PrimeCoprime(q, a);
    var x, y := Bezout(q, a);
    var k := a * b / q;
    assert a * b == k * q;
    assert b == (q * x + a * y) * b;
    assert (q * x + a * y) * b == (x * b) * q + y * (a * b);
    assert y * (k * q) == (y * k) * q;
    assert b == (x * b + y * k) * q;
    MultipleIsZero(b, x * b + y * k, q);
  }

  // ----- Fermat's little theorem -----

  function Product(s: seq<nat>): (p: nat)
  {
    if s == [] then 1 else Product(s[..|s| - 1]) * s[|s| - 1]
  }

  function Factorial(n: nat): (f: nat)
  {
    if n == 0 then 1 else Factorial(n - 1) * n
  }

  predicate Distinct(s: seq<nat>)
  {
    forall i, j :: 0 <= i < j < |s| ==> s[i] != s[j]
  }

  predicate Within(s: seq<nat>, n: nat)
  {
    forall i :: 0 <= i < |s| ==> 1 <= s[i] <= n
  }

  function Upto(n: nat): (r: set<nat>)
    ensures |r| == n && forall x :: x in r <==> 1 <= x <= n
  {
    if n == 0 then {} else Upto(n - 1) + {n}
  }

  function Members(s: seq<nat>): (r: set<nat>)
  {
    set x | x in s
  }

  lemma {:induction false} DistinctSize(s: seq<nat>)
    requires Distinct(s)
    ensures |Members(s)| == |s|
  {
    if s == [] {
      assert Members(s) == {};
    } else {
      var init, last := s[..|s| - 1], s[|s| - 1];
      DistinctSize(init);
      assert s == init + [last];
      assert Members(s) == Members(init) + {last};
    }
  }

  lemma SubsetSize(a: set<nat>, b: set<nat>)
    requires a <= b
    ensures |a| <= |b|
    decreases |a|
  {
    if a != {} {
      var x :| x in a;
      SubsetSize(a - {x}, b - {x});
    }
  }

  /** As many different numbers as there are from 1 to `n` include `n`. */
  lemma HoldsLast(s: seq<nat>, n: nat) returns (k: nat)
    requires Distinct(s) && Within(s, n) && |s| == n > 0
    ensures k < n && s[k] == n
  {
    if forall i :: 0 <= i < |s| ==> s[i] != n {
      DistinctSize(s);
      SubsetSize(Members(s), Upto(n - 1));
      assert false;
    }
    k :| 0 <= k < |s| && s[k] == n;
  }

  lemma {:induction false} ProductWithout(s: seq<nat>, k: nat)
    requires k < |s|
    ensures Product(s) == Product(s[..k] + s[k + 1..]) * s[k]
  {
    var n := |s| - 1;
    var rest := s[..k] + s[k + 1..];
    if k == n {
      assert rest == s[..n];
    } else {
      ProductWithout(s[..n], k);
      var inner := s[..n][..k] + s[..n][k + 1..];
      assert rest[..n - 1] == inner && rest[n - 1] == s[n];
      SwapLast(Product(inner), s[k], s[n]);
    }
  }

  lemma SwapLast(p: nat, a: nat, b: nat)
    ensures (p * a) * b == (p * b) * a
  {}

  /** Different numbers from 1 to `n`, `n` of them, have the product `n!`. */
  lemma {:induction false} ProductIsFactorial(s: seq<nat>, n: nat)
    requires Distinct(s) && Within(s, n) && |s| == n
    ensures Product(s) == Factorial(n)
  {
    if n > 0 {
      var k := HoldsLast(s, n);
      var rest := s[..k] + s[k + 1..];
      ProductWithout(s, k);
      forall i | 0 <= i < |rest| ensures 1 <= rest[i] <= n - 1 {
        assert rest[i] == if i < k then s[i] else s[i + 1];
      }
      ProductIsFactorial(rest, n - 1);
    }
  }

  /** The multiples of `a` modulo `r`. */
  function Multiples(a: nat, r: nat, n: nat): (s: seq<nat>)
    requires r > 0
    ensures |s| == n && forall i :: 0 <= i < n ==> s[i] == a * (i + 1) % r
  {
    if n == 0 then [] else Multiples(a, r, n - 1) + [a * n % r]
  }

  lemma {:induction false} MultiplesProduct(a: nat, r: nat, n: nat)
    requires r > 0
    ensures Product(Multiples(a, r, n)) % r == Exp(a, n) * Factorial(n) % r
  {
    if n > 0 {
      var s := Multiples(a, r, n);
      MultiplesProduct(a, r, n - 1);
      assert s[..n - 1] == Multiples(a, r, n - 1);
      var p, q := Product(Multiples(a, r, n - 1)), Exp(a, n - 1) * Factorial(n - 1);
      ModMul(p, a * n, r);
      ModMul(q, a * n, r);
      assert p % r * (a * n % r) % r == p * (a * n) % r;
      ModMul(p, a * n % r, r);
      FactorsRegrouped(Exp(a, n - 1), Factorial(n - 1), a, n);
    }
  }

  lemma FactorsRegrouped(e: nat, f: nat, a: nat, n: nat)
    ensures (e * f) * (a * n) == (a * e) * (f * n)
  {
    assert (e * f) * (a * n) == (e * f) * a * n;
  }

  /** Different factors give different multiples, none of them zero. */
  lemma MultiplesDistinct(a: nat, r: nat)
    requires Prime(r) && a % r != 0
    ensures Distinct(Multiples(a, r, r - 1)) && Within(Multiples(a, r, r - 1), r - 1)
  {
    var s := Multiples(a, r, r - 1);
    forall i | 0 <= i < |s| ensures 1 <= s[i] <= r - 1 {
      if s[i] == 0 {
        EuclidsLemma(r, a, i + 1);
        DivModUnique(i + 1, r, 0, i + 1);
        assert false;
      }
    }
    forall i, j | 0 <= i < j < |s| ensures s[i] != s[j] {
      if s[i] == s[j] {
        SameMultiple(a, r, i + 1, j + 1);
        EuclidsLemma(r, a, j - i);
        DivModUnique(j - i, r, 0, j - i);
        assert false;
      }
    }
  }

  lemma SameMultiple(a: nat, r: nat, x: nat, y: nat)
    requires r > 0 && x <= y && a * x % r == a * y % r
    ensures a * (y - x) % r == 0
  {
    var q, p := a * x / r, a * y / r;
    assert a * x == q * r + a * x % r && a * y == p * r + a * y % r;
    assert a * (y - x) == a * y - a * x == (p - q) * r;
    MultipleIsZero(a * (y - x), p - q, r);
  }

  lemma {:induction false} FactorialNotMultiple(r: nat, n: nat)
    requires Prime(r) && n < r
    ensures Factorial(n) % r != 0
  {
    if n == 0 {
      DivModUnique(1, r, 0, 1);
    } else {
      FactorialNotMultiple(r, n - 1);
      DivModUnique(n, r, 0, n);
      if Factorial(n) % r == 0 {
        EuclidsLemma(r, Factorial(n - 1), n);
        assert false;
      }
    }
  }

  /** Fermat's little theorem. */
  lemma Fermat(a: nat, r: nat)
    requires Prime(r) && a % r != 0
    ensures Exp(a, r - 1) % r == 1
  {
    var f, e := Factorial(r - 1), Exp(a, r - 1);
    MultiplesDistinct(a, r);
    ProductIsFactorial(Multiples(a, r, r - 1), r - 1);
    MultiplesProduct(a, r, r - 1);
    FactorialNotMultiple(r, r - 1);
    CancelFactor(f, e, r);
  }

  lemma CancelFactor(f: nat, e: nat, r: nat)
    requires Prime(r) && f % r != 0 && f % r == e * f % r
    ensures e % r == 1
  {
    assert f * 1 == f && f * e == e * f;
    if e > 0 {
      SameMultiple(f, r, 1, e);
      EuclidsLemma(r, f, e - 1);
      OneMore(e, r);
    }
  }

  lemma OneMore(e: nat, r: nat)
    requires r > 1 && e > 0 && (e - 1) % r == 0
    ensures e % r == 1
  {
    var k := (e - 1) / r;
    assert e == k * r + 1;
    DivModUnique(e, r, k, 1);
  }

  lemma TimesOne(x: nat, y: nat, r: nat)
    requires r > 1 && y % r == 1 && x * y % r == 1
    ensures x % r == 1
  {
    ModMul(x, y, r);
    assert x * 1 == x;
  }

  // ----- Pocklington's criterion -----

  /** If `q` did not divide `r - 1`, the power `R` of `a` would be one modulo `r`. */
  lemma PowerIsOne(q: nat, R: nat, w: nat, a: nat, r: nat)
    requires Prime(q) && Prime(r) && (r - 1) % q != 0 && w == q * R
    requires Exp(a, w) % r == 1 && w > 0
    ensures Exp(a, R) % r == 1
  {
    BaseNotMultiple(a, w, r);
    Fermat(a, r);
    PrimeCoprime(q, r - 1);
    var s, e, k, z := Exponents(q, R, w, r - 1);
    PowerOfOne(a, w, s, r, e);
    PowerOfOne(a, r - 1, k, r, z);
    SplitPower(a, R, e, z, r);
  }

  /** A multiple of `q * R` that is `R` more than a multiple of `m`. */
  lemma Exponents(q: nat, R: nat, w: nat, m: nat) returns (s: nat, e: nat, k: nat, z: nat)
    requires m > 0 && q > 0 && Gcd(q, m) == 1 && w == q * R
    ensures e == w * s && z == m * k && e == R + z
  {
    var t;
    s, t := InverseMod(q, m);
    k := t * R;
    e, z := w * s, m * k;
    ExponentSplit(q, R, s, t, m);
  }

  lemma PowerOfOne(a: nat, x: nat, s: nat, r: nat, e: nat)
    requires r > 1 && e == x * s && Exp(a, x) % r == 1
    ensures Exp(a, e) % r == 1
  {
    ExpMul(a, x, s);
    OnesStayOne(Exp(a, x), s, r);
  }

  lemma SplitPower(a: nat, R: nat, e: nat, z: nat, r: nat)
    requires r > 1 && e == R + z && Exp(a, e) % r == 1 && Exp(a, z) % r == 1
    ensures Exp(a, R) % r == 1
  {
    ExpAdd(a, R, z);
    TimesOne(Exp(a, R), Exp(a, z), r);
  }

  lemma ExponentSplit(q: nat, R: nat, s: nat, t: nat, m: nat)
    requires s * q == 1 + t * m
    ensures (q * R) * s == R + m * (t * R)
  {
    assert (q * R) * s == (s * q) * R;
    assert (1 + t * m) * R == R + (t * m) * R;
    assert (t * m) * R == m * (t * R);
  }

  lemma {:induction false} BaseNotMultiple(a: nat, n: nat, r: nat)
    requires r > 1 && n > 0 && Exp(a, n) % r == 1
    ensures a % r != 0
  {
    ModMul(Exp(a, n - 1), a, r);
    assert Exp(a, n) == Exp(a, n - 1) * a;
    assert Exp(a, n - 1) * 0 == 0;
  }

  /** The evidence that `q` divides `r - 1` for every prime divisor `r` of `n`. */
  predicate Witness(n: nat, q: nat, R: nat, a: nat, b: nat, u: nat)
  {
    && n > 1 && n - 1 == q * R && b > 0
    && Exp(a, n - 1) % n == 1 && Exp(a, R) % n == b && u * (b - 1) % n == 1
  }

  lemma WitnessDivides(n: nat, q: nat, R: nat, a: nat, b: nat, u: nat, r: nat)
    requires Witness(n, q, R, a, b, u) && Prime(q) && Prime(r) && n % r == 0
    ensures (r - 1) % q == 0
  {
    if (r - 1) % q != 0 {
      DivModUnique(1, n, 0, 1);
      DivModUnique(1, r, 0, 1);
      CongruentDown(Exp(a, n - 1), 1, n, r);
      PowerIsOne(q, R, n - 1, a, r);
      DivModUnique(b, n, 0, b);
      CongruentDown(Exp(a, R), b, n, r);
      CongruentDown(u * (b - 1), 1, n, r);
      var k := b / r;
      assert b - 1 == k * r;
      assert u * (k * r) == (u * k) * r;
      MultipleIsZero(u * (b - 1), u * k, r);
      assert false;
    }
  }

  /** A number that is not prime has a prime divisor not above its root. */
  lemma SmallDivisor(n: nat) returns (r: nat)
    requires n > 1 && !Prime(n)
    ensures Prime(r) && n % r == 0 && r * r <= n
  {
    var d :| 1 < d < n && n % d == 0;
    r := LeastDivisor(n, d);
    if r * r > n {
      CofactorDivides(n, r);
      assert false;
    }
  }

  lemma CofactorDivides(n: nat, r: nat)
    requires n > r > 0 && n % r == 0 && r * r > n
    ensures 1 < n / r < r && n % (n / r) == 0
  {
    var k := n / r;
    assert n == k * r;
    CofactorBelow(n, k, r);
    MultipleIsZero(n, r, k);
  }

  lemma CofactorBelow(n: nat, k: nat, r: nat)
    requires n == k * r && r * r > n && n > r > 0
    ensures 1 < k < r
  {
    if k >= r { MulMono(r, k, r); }
    if k <= 1 { MulMono(k, 1, r); }
  }

  /** The least divisor above one is prime. */
  lemma {:induction false} LeastDivisor(n: nat, d: nat) returns (r: nat)
    requires 1 < d < n && n % d == 0
    ensures 1 < r <= d && n % r == 0 && Prime(r) && forall x :: 1 < x < r ==> n % x != 0
    decreases d
  {
    if x :| 1 < x < d && n % x == 0 {
      r := LeastDivisor(n, x);
    } else {
      r := d;
      forall x | 1 < x < r ensures r % x != 0 {
        if r % x == 0 {
          DividesThrough(x, r, n);
          assert false;
        }
      }
    }
  }

  lemma SquareMono(a: nat, b: nat)
    requires a <= b
    ensures a * a <= b * b
  {
    MulMono(a, b, a);
    MulMono(a, b, b);
  }

  /** One large prime factor of `n - 1` is enough. */
  lemma PrimeByOne(n: nat, q: nat, R: nat, a: nat, b: nat, u: nat)
    requires Witness(n, q, R, a, b, u) && Prime(q) && (q + 1) * (q + 1) > n
    ensures Prime(n)
  {
    if !Prime(n) {
      var r := SmallDivisor(n);
      WitnessDivides(n, q, R, a, b, u, r);
      DivisorAtMost(q, r - 1);
      SquareMono(q + 1, r);
      assert false;
    }
  }

  /** The cofactor of a divisor that is one modulo `q` is one modulo `q` too. */
  lemma CofactorIsOne(q: nat, R: nat, k: nat, r: nat, alpha: nat) returns (beta: nat)
    requires q > 0 && k > 1 && r == alpha * q + 1 && k * r == q * R + 1
    ensures beta >= 1 && k == beta * q + 1
  {
    assert k * r == k * (alpha * q) + k;
    assert k * (alpha * q) == (k * alpha) * q;
    assert k - 1 == (R - k * alpha) * q by { assert q * R == R * q; Subtract(R, k * alpha, q); }
    if R - k * alpha <= 0 { NonPositive(R - k * alpha, q); }
    beta := R - k * alpha;
  }

  lemma Subtract(x: int, y: int, q: int)
    ensures (x - y) * q == x * q - y * q
  {}

  lemma NonPositive(x: int, q: nat)
    requires x <= 0
    ensures x * q <= 0
  {}

  /** The product of two numbers that are one modulo `q`. */
  lemma ProductOfOnes(q: nat, R: nat, alpha: nat, beta: nat)
    requires q > 0 && (alpha * q + 1) * (beta * q + 1) == q * R + 1
    ensures R == (alpha * beta) * q + (alpha + beta)
  {
    var s := alpha + beta;
    assert (alpha * q + 1) * (beta * q + 1) == (alpha * q) * (beta * q) + alpha * q + beta * q + 1;
    assert (alpha * q) * (beta * q) == ((alpha * beta) * q) * q;
    assert alpha * q + beta * q == s * q;
    assert ((alpha * beta) * q) * q + s * q == ((alpha * beta) * q + s) * q;
    CancelRight(R, (alpha * beta) * q + s, q);
  }

  lemma CancelRight(x: int, y: int, q: int)
    requires q > 0 && q * x == y * q
    ensures x == y
  {
    DivModUnique(q * x, q, x, 0);
    DivModUnique(q * x, q, y, 0);
  }

  lemma SumBelowProduct(alpha: nat, beta: nat)
    requires alpha >= 1 && beta >= 1
    ensures alpha + beta <= alpha * beta + 1
  {
    assert (alpha - 1) * (beta - 1) >= 0;
    assert (alpha - 1) * (beta - 1) == alpha * beta - alpha - beta + 1;
  }

  lemma SquareOfDifference(alpha: int, beta: int)
    ensures (alpha + beta) * (alpha + beta) - 4 * (alpha * beta) == (alpha - beta) * (alpha - beta)
  {}

  /** No number has this square. */
  ghost predicate NotSquare(d: int)
  {
    forall z: int :: z * z != d
  }

  lemma Between(s: nat, d: int)
    requires s * s < d < (s + 1) * (s + 1)
    ensures NotSquare(d)
  {
    forall z: int ensures z * z != d {
      var y := if z < 0 then -z else z;
      assert y * y == z * z;
      if y <= s { SquareMono(y, s); } else { SquareMono(s + 1, y); }
    }
  }

  /** A factorization into numbers that are one modulo `q` shows in the two digits of `R` to the base `q`. */
  lemma DigitsShow(q: nat, R: nat, alpha: nat, beta: nat)
    requires alpha >= 1 && beta >= 1 && q > 1 && R == (alpha * beta) * q + (alpha + beta) && R < q * q
    ensures !NotSquare((R % q) * (R % q) - 4 * (R / q))
  {
    var ab, s := alpha * beta, alpha + beta;
    SumBelowProduct(alpha, beta);
    assert ab < q by { if ab >= q { MulMono(q, ab, q); } }
    assert (ab + 1) * q == ab * q + q;
    if ab + 1 >= q { MulMono(q, ab + 1, q); }
    DivModUnique(R, q, ab, s);
    SquareOfDifference(alpha, beta);
    var z := alpha - beta;
    assert z * z == (R % q) * (R % q) - 4 * (R / q);
  }

  /** One prime factor above the cube root is enough, if the digits of the cofactor show no factorization. */
  lemma PrimeByDigits(n: nat, q: nat, R: nat, a: nat, b: nat, u: nat)
    requires Witness(n, q, R, a, b, u) && Prime(q) && R < q * q && NotSquare((R % q) * (R % q) - 4 * (R / q))
    ensures Prime(n)
  {
    if !Prime(n) {
      var r := SmallDivisor(n);
      WitnessDivides(n, q, R, a, b, u, r);
      FactorsFound(n, q, R, r);
      assert false;
    }
  }

  lemma CofactorAbove(k: nat, r: nat)
    requires 1 < r && r * r <= k * r
    ensures k > 1
  {
    if k < r { MulMono(k + 1, r, r); assert false; }
  }

  lemma FactorsFound(n: nat, q: nat, R: nat, r: nat)
    requires n - 1 == q * R && q > 1 && R < q * q && 1 < r && n % r == 0 && r * r <= n && (r - 1) % q == 0
    ensures !NotSquare((R % q) * (R % q) - 4 * (R / q))
  {
    TwoFactors(n / r, r, (r - 1) / q, q, R);
  }

  lemma TwoFactors(k: nat, r: nat, alpha: nat, q: nat, R: nat)
    requires k * r == q * R + 1 && r == alpha * q + 1 && q > 1 && R < q * q && 1 < r && r * r <= k * r
    ensures !NotSquare((R % q) * (R % q) - 4 * (R / q))
  {
    CofactorAbove(k, r);
    var beta := CofactorIsOne(q, R, k, r, alpha);
    ProductOfOnes(q, R, beta, alpha);
    DigitsShow(q, R, beta, alpha);
  }

  /** The evidence from a power and a power of that power. */
  lemma MakeWitness(n: nat, q: nat, R: nat, a: nat, b: nat, u: nat)
    requires n > 1 && n - 1 == q * R && b > 0 && Exp(a, R) % n == b && Exp(b, q) % n == 1 && u * (b - 1) % n == 1
    ensures Witness(n, q, R, a, b, u)
  {
    assert q * R == R * q;
    ExpMul(a, R, q);
    DivModUnique(b, n, 0, b);
    ExpMod(Exp(a, R), b, q, n);
  }

  lemma LastFactor(a: nat, x: nat, y: nat, p: nat)
    requires p > 0 && y == a * x && (a % p != 0 ==> y % p == 1)
    ensures a * (x % p) % p == if a % p == 0 then 0 else 1
  {
    ModMul(a, x, p);
    if a % p == 0 {
      ZeroTimes(a % p, x % p, p);
    }
  }

  lemma ZeroTimes(z: nat, w: nat, p: nat)
    requires z == 0 && p > 0
    ensures z * w % p == 0
  {
    DivModUnique(z * w, p, 0, 0);
  }

  /** By Fermat's little theorem the power `p - 2` is the inverse, for every number that has one. */
  lemma PowerInverts(a: nat, p: nat)
    requires Prime(p)
    ensures a * (Exp(a, p - 2) % p) % p == if a % p == 0 then 0 else 1
  {
    if a % p != 0 {
      Fermat(a, p);
    }
    LastFactor(a, Exp(a, p - 2), Exp(a, p - 1), p);
  }
}
