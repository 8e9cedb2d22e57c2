/**
 The carry and borrow loops shared by the field and the scalar arithmetic of tpt-ed25519.
 Every loop is proved to compute the exact integer result: no carry is lost.
 */
module LimbArithmetic {
  import opened Limbs

  /** Comparison from the most significant limb down. */
  method GreaterEq(a: seq<u64>, b: seq<u64>) returns (r: bool)
    requires |a| == |b|
    ensures r <==> Val(a) >= Val(b)
  {
    var i := |a|;
    while i > 0
      invariant 0 <= i <= |a|
      invariant a[i..] == b[i..]
    {
      i := i - 1;
      if a[i] != b[i] {
        TopLimbDecides(a, b, i);
        return a[i] > b[i];
      }
    }
    assert a == a[0..] && b == b[0..];
    return true;
  }

  lemma Dominates(lo: int, x: int, lo': int, y: int, w: nat)
    requires 0 <= lo && lo' < w && x > y
    ensures lo + x * w > lo' + y * w
  {
    MulMono(1, x - y, w);
    assert (x - y) * w == x * w - y * w;
  }

  lemma TopLimbDecides(a: seq<u64>, b: seq<u64>, i: nat)
    requires |a| == |b| && i < |a| && a[i + 1..] == b[i + 1..] && a[i] != b[i]
    ensures a[i] > b[i] <==> Val(a) >= Val(b)
  {
    ValSplit(a, i + 1);
    ValSplit(b, i + 1);
    assert a[i] > b[i] <==> Val(a[..i + 1]) >= Val(b[..i + 1]) by {
      ValSnoc(a, i);
      ValSnoc(b, i);
      ValBound(a[..i]);
      ValBound(b[..i]);
      if a[i] > b[i] {
        Dominates(Val(a[..i]), a[i], Val(b[..i]), b[i], Weight(i));
      } else {
        Dominates(Val(b[..i]), b[i], Val(a[..i]), a[i], Weight(i));
      }
    }
  }

  /** Digit `s % B64` at weight `w` plus carry `s / B64` at the next weight is `s` at weight `w`. */
  lemma CarryStep(s: int, w: int)
    ensures s % B64 * w + s / B64 * (B64 * w) == s * w
  {
    assert s == s % B64 + s / B64 * B64;
    assert (s % B64 + s / B64 * B64) * w == s % B64 * w + (s / B64 * B64) * w;
  }

  method AddLimbs(a: seq<u64>, b: seq<u64>) returns (r: seq<u64>, carry: u128)
    requires |a| == |b|
    ensures |r| == |a| && carry <= 1
    ensures Val(r) + carry * Weight(|a|) == Val(a) + Val(b)
  {
    var buf := new u64[|a|](_ => 0);
    carry := 0;
    for i := 0 to |a|
      invariant carry <= 1
      invariant Val(buf[..i]) + carry * Weight(i) == Val(a[..i]) + Val(b[..i])
    {
      var s: u128 := a[i] + b[i] + carry;
      ghost var before := buf[..i];
      buf[i] := s % B64;
      ValSnoc(a, i);
      ValSnoc(b, i);
      ValPush(before, buf[..i + 1]);
      CarryStep(s, Weight(i));
      Distribute3(a[i], b[i], carry, Weight(i));
      carry := s / B64;
    }
    r := buf[..];
    assert r == buf[..|a|] && a == a[..|a|] && b == b[..|a|];
  }

  lemma Distribute3(x: int, y: int, z: int, w: int)
    ensures (x + y + z) * w == x * w + y * w + z * w
  {}

  method SubLimbs(a: seq<u64>, b: seq<u64>) returns (r: seq<u64>, borrow: i128)
    requires |a| == |b|
    ensures |r| == |a| && (borrow == 0 || borrow == 1)
    ensures Val(r) - borrow * Weight(|a|) == Val(a) - Val(b)
  {
    var buf := new u64[|a|](_ => 0);
    borrow := 0;
    for i := 0 to |a|
      invariant borrow == 0 || borrow == 1
      invariant Val(buf[..i]) - borrow * Weight(i) == Val(a[..i]) - Val(b[..i])
    {
      var x: i128 := a[i] - b[i] - borrow;
      ghost var before, was := buf[..i], borrow;
      if x < 0 {
        buf[i] := x + B64;
        borrow := 1;
      } else {
        buf[i] := x;
        borrow := 0;
      }
      ValSnoc(a, i);
      ValSnoc(b, i);
      ValPush(before, buf[..i + 1]);
      BorrowStep(a[i], b[i], was, buf[i], borrow, Weight(i));
    }
    r := buf[..];
    assert r == buf[..|a|] && a == a[..|a|] && b == b[..|a|];
  }

  lemma NoBorrow(t: seq<u64>, borrow: int)
    requires |t| == 4 && 0 <= borrow && Val(t) - borrow * Weight(4) >= 0
    ensures borrow == 0
  {
    ValBound(t);
    if borrow > 0 { MulMono(1, borrow, Weight(4)); }
  }

  lemma BorrowStep(a: int, b: int, was: int, d: int, borrow: int, w: int)
    requires d - borrow * B64 == a - b - was
    ensures d * w - borrow * (B64 * w) == a * w - b * w - was * w
  {
    assert (d - borrow * B64) * w == d * w - (borrow * B64) * w;
    assert (a - b - was) * w == a * w - b * w - was * w;
  }

  lemma ProductBound(a: nat, b: nat, m: nat)
    requires a <= m && b <= m
    ensures 0 <= a * b <= m * m
  {
    MulMono(a, m, b);
    MulMono(b, m, m);
  }

  /** One term of a row fits in 128 bits and leaves a carry below 2^64. */
  lemma RowTermFits(x: u64, a: u64, b: u64, carry: int)
    requires 0 <= carry < B64
    ensures 0 <= x + a * b + carry < B64 * B64
  {
    ProductBound(a, b, B64 - 1);
  }

  /** One row of the schoolbook product: adds `x * b` at limb `i`, leaving the row's last carry. */
  method MulRow(buf: array<u64>, x: u64, b: seq<u64>, i: nat) returns (carry: u128)
    requires |b| == 4 && i + 4 <= buf.Length
    modifies buf
    ensures carry < B64
    ensures Val(buf[..]) + carry * Weight(i + 4) == old(Val(buf[..])) + x * Val(b) * Weight(i)
  {
    carry := 0;
    for j := 0 to 4
      invariant carry < B64
      invariant Val(buf[..]) + carry * Weight(i + j) == old(Val(buf[..])) + x * Val(b[..j]) * Weight(i)
    {
      RowTermFits(buf[i + j], x, b[j], carry);
      var s: u128 := buf[i + j] + x * b[j] + carry;
      var d: u64 := s % B64;
      ghost var before := buf[..];
      buf[i + j] := d;
      assert buf[..] == before[i + j := d];
      RowUpdate(before, i, j, x, b, carry, s);
      carry := s / B64;
    }
    assert b[..4] == b;
  }

  /** Ripples a carry upwards from limb `from`; nothing is lost when the total fits the buffer. */
  method Ripple(buf: array<u64>, from: nat, carry: u128)
    requires from <= buf.Length && carry < B64
    requires Val(buf[..]) + carry * Weight(from) < Weight(buf.Length)
    modifies buf
    ensures Val(buf[..]) == old(Val(buf[..])) + carry * Weight(from)
  {
    var k, c := from, carry;
    while c > 0 && k < buf.Length
      invariant from <= k <= buf.Length && 0 <= c < B64
      invariant Val(buf[..]) + c * Weight(k) == old(Val(buf[..])) + carry * Weight(from)
    {
      var s: u128 := buf[k] + c;
      ghost var before := buf[..];
      buf[k] := s % B64;
      assert buf[..] == before[k := s % B64];
      ValUpdate(before, k, s % B64);
      RippleStep(before[k], c, s, Weight(k));
      c := s / B64;
      k := k + 1;
    }
    if k == buf.Length {
      NoCarry(Val(buf[..]), c, Weight(k));
    }
  }

  lemma RippleStep(x: int, c: int, s: int, w: int)
    requires s == x + c
    ensures (s % B64 - x) * w + s / B64 * (B64 * w) == c * w
  {
    CarryStep(s, w);
    assert (s % B64 - x) * w == s % B64 * w - x * w;
    assert s * w == x * w + c * w;
  }

  /** Schoolbook product of two 4-limb numbers. */
  method MulLimbs(a: seq<u64>, b: seq<u64>) returns (r: seq<u64>)
    requires |a| == 4 && |b| == 4
    ensures |r| == 8 && Val(r) == Val(a) * Val(b)
  {
    var buf := new u64[8](_ => 0);
    ValZeros(buf[..]);
    for i := 0 to 4
      invariant Val(buf[..]) == Val(a[..i]) * Val(b)
    {
      assert Val(a[..i + 1]) * Val(b) == Val(a[..i]) * Val(b) + a[i] * Val(b) * Weight(i) by {
        ValSnoc(a, i);
        Distribute2(Val(a[..i]), a[i], Weight(i), Val(b));
      }
      ProductFits(a, b, i + 1);
      var carry := MulRow(buf, a[i], b, i);
      Ripple(buf, i + 4, carry);
    }
    r := buf[..];
    assert a[..4] == a;
  }

  /** The effect of one row term on the value of the buffer. */
  lemma RowUpdate(buf: seq<u64>, i: nat, j: nat, x: u64, b: seq<u64>, carry: int, s: nat)
    requires i + j < |buf| && j < |b| && s == buf[i + j] + x * b[j] + carry
    ensures Val(buf[i + j := s % B64]) + s / B64 * Weight(i + j + 1)
         == Val(buf) + carry * Weight(i + j) + x * Val(b[..j + 1]) * Weight(i) - x * Val(b[..j]) * Weight(i)
  {
    ValUpdate(buf, i + j, s % B64);
    ValSnoc(b, j);
    WeightAdd(i, j);
    RowStep(buf[i + j], x, b[j], carry, s, Val(b[..j]), Weight(i), Weight(j));
  }

  lemma RowStep(x: int, a: int, b: int, carry: int, s: int, vb: int, wi: int, wj: int)
    requires s == x + a * b + carry
    ensures (s % B64 - x) * (wi * wj) + s / B64 * (B64 * (wi * wj))
         == carry * (wi * wj) + a * (vb + b * wj) * wi - a * vb * wi
  {
    var w := wi * wj;
    CarryStep(s, w);
    assert (s % B64 - x) * w == s % B64 * w - x * w;
    Distribute3(x, a * b, carry, w);
    assert a * (vb + b * wj) * wi == a * vb * wi + (a * b) * w by {
      assert a * (vb + b * wj) == a * vb + a * b * wj;
      assert (a * vb + a * b * wj) * wi == a * vb * wi + a * b * wj * wi;
      assert a * b * wj * wi == (a * b) * w;
    }
  }

  lemma Distribute2(va: int, x: int, w: int, vb: int)
    ensures (va + x * w) * vb == va * vb + x * vb * w
  {
    assert (va + x * w) * vb == va * vb + (x * w) * vb;
    assert (x * w) * vb == x * vb * w;
  }

  lemma ProductFits(a: seq<u64>, b: seq<u64>, n: nat)
    requires |a| == 4 && |b| == 4 && n <= 4
    ensures Val(a[..n]) * Val(b) < Weight(8)
  {
    ValSplit(a, n);
    ValBound(a);
    ValBound(b);
    WeightAdd(4, 4);
    var x, y := Val(a[..n]), Val(b);
    assert x < Weight(4) by {
      assert Val(a[n..]) * Weight(n) >= 0;
    }
    MulMono(x, Weight(4), y);
    MulMono(y + 1, Weight(4), Weight(4));
    assert (y + 1) * Weight(4) == y * Weight(4) + Weight(4);
  }
}
