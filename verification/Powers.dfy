/** Powers of numbers, and powers modulo a number. */
module Powers {
  import opened Limbs

  function Exp(a: nat, n: nat): (r: nat)
  {
    if n == 0 then 1 else a * Exp(a, n - 1)
  }

  lemma {:induction false} ExpAdd(a: nat, m: nat, n: nat)
    ensures Exp(a, m + n) == Exp(a, m) * Exp(a, n)
  {
    if m > 0 {
      ExpAdd(a, m - 1, n);
      assert Exp(a, m + n) == a * Exp(a, m - 1 + n);
      assert a * (Exp(a, m - 1) * Exp(a, n)) == (a * Exp(a, m - 1)) * Exp(a, n);
    }
  }

  lemma {:induction false} ExpMul(a: nat, m: nat, n: nat)
    ensures Exp(a, m * n) == Exp(Exp(a, m), n)
  {
    if n > 0 {
      ExpMul(a, m, n - 1);
      assert m * n == m + m * (n - 1);
      ExpAdd(a, m, m * (n - 1));
    }
  }

  lemma SquareStep(a: nat, q: nat, m: nat)
    requires m > 0
    ensures (Exp(a, q) % m) * (Exp(a, q) % m) % m == Exp(a, 2 * q) % m
  {
    ExpAdd(a, q, q);
    ModMul(Exp(a, q), Exp(a, q), m);
  }

  lemma MultiplyStep(a: nat, n: nat, m: nat)
    requires m > 0
    ensures Exp(a, n) % m * a % m == Exp(a, n + 1) % m
  {
    ModMul(a, Exp(a, n), m);
    assert Exp(a, n) % m * a == a * (Exp(a, n) % m);
  }

  /** Powers of congruent numbers are congruent. */
  lemma {:induction false} ExpMod(a: nat, b: nat, n: nat, m: nat)
    requires m > 0 && a % m == b % m
    ensures Exp(a, n) % m == Exp(b, n) % m
  {
    if n > 0 {
      ExpMod(a, b, n - 1, m);
      ModMul(a, Exp(a, n - 1), m);
      ModMul(b, Exp(b, n - 1), m);
    }
  }

  lemma {:induction false} ExpOne(n: nat)
    ensures Exp(1, n) == 1
  {
    if n > 0 { ExpOne(n - 1); }
  }

  /** Powers of what is one modulo `m` are one modulo `m`. */
  lemma OnesStayOne(a: nat, n: nat, m: nat)
    requires m > 1 && a % m == 1
    ensures Exp(a, n) % m == 1
  {
    ExpMod(a, 1, n, m);
    ExpOne(n);
  }
}
