/** Little-endian byte form of limb arrays (`u64::from_le_bytes`, `u64::to_le_bytes`). */
module LimbBytes {
  import opened BigEndian
  import opened Limbs

  type u8 = x: int | 0 <= x < 256

  /** The number a little-endian byte string stands for. */
  function LeVal(b: seq<u8>): (v: nat)
  {
    if b == [] then 0 else b[0] + 256 * LeVal(b[1..])
  }

  /** The `n` low bytes of `x`, least significant first. */
  function LeBytes(x: nat, n: nat): (b: seq<u8>)
    ensures |b| == n
  {
    if n == 0 then [] else [x % 256] + LeBytes(x / 256, n - 1)
  }

  lemma {:induction false} LeBytesVal(x: nat, n: nat)
    requires x < Pow256(n)
    ensures LeVal(LeBytes(x, n)) == x
  {
    if n > 0 {
      LeBytesVal(x / 256, n - 1);
      assert LeBytes(x, n)[1..] == LeBytes(x / 256, n - 1);
    }
  }

  lemma {:induction false} LeValBound(b: seq<u8>)
    ensures LeVal(b) < Pow256(|b|)
  {
    if b != [] { LeValBound(b[1..]); }
  }

  lemma {:induction false} LeValAppend(a: seq<u8>, b: seq<u8>)
    ensures LeVal(a + b) == LeVal(a) + Pow256(|a|) * LeVal(b)
  {
    if a == [] {
      assert a + b == b;
    } else {
      LeValAppend(a[1..], b);
      assert (a + b)[1..] == a[1..] + b;
      assert 256 * (Pow256(|a| - 1) * LeVal(b)) == Pow256(|a|) * LeVal(b);
    }
  }

  /** Byte strings of the same length with the same value are equal. */
  lemma {:induction false} LeValInjective(a: seq<u8>, b: seq<u8>)
    requires |a| == |b| && LeVal(a) == LeVal(b)
    ensures a == b
  {
    if a != [] {
      assert a[0] == b[0] && LeVal(a[1..]) == LeVal(b[1..]);
      LeValInjective(a[1..], b[1..]);
      assert a == [a[0]] + a[1..] && b == [b[0]] + b[1..];
    }
  }

  lemma {:induction false} Pow256IsWeight(i: nat)
    ensures Pow256(8 * i) == Weight(i)
  {
    if i > 0 {
      Pow256IsWeight(i - 1);
      EightBytes(8 * (i - 1));
    }
  }

  lemma EightBytes(n: nat)
    ensures Pow256(n + 8) == B64 * Pow256(n)
  {
    assert Pow256(n + 2) == 0x1_0000 * Pow256(n);
    assert Pow256(n + 4) == 0x1_0000 * Pow256(n + 2);
    assert Pow256(n + 6) == 0x1_0000 * Pow256(n + 4);
    assert Pow256(n + 8) == 0x1_0000 * Pow256(n + 6);
  }

  lemma NextChunk(bytes: seq<u8>, chunk: seq<u8>, i: nat)
    requires |bytes| == 8 * i && |chunk| == 8
    ensures LeVal(chunk) < B64
    ensures LeVal(bytes + chunk) == LeVal(bytes) + LeVal(chunk) * Weight(i)
  {
    LeValBound(chunk);
    EightBytes(0);
    LeValAppend(bytes, chunk);
    Pow256IsWeight(i);
  }

  lemma LimbChunk(x: u64)
    ensures LeVal(LeBytes(x, 8)) == x
  {
    EightBytes(0);
    LeBytesVal(x, 8);
  }

  /** Reads four limbs from 32 bytes. */
  method LimbsFromBytes(bytes: seq<u8>) returns (r: seq<u64>)
    requires |bytes| == 32
    ensures |r| == 4 && Val(r) == LeVal(bytes)
  {
    var limbs := new u64[4](_ => 0);
    for i := 0 to 4
      invariant Val(limbs[..i]) == LeVal(bytes[..8 * i])
    {
      var chunk := bytes[8 * i..8 * i + 8];
      NextChunk(bytes[..8 * i], chunk, i);
      ghost var before := limbs[..i];
      limbs[i] := LeVal(chunk);
      ValPush(before, limbs[..i + 1]);
      assert bytes[..8 * (i + 1)] == bytes[..8 * i] + chunk;
    }
    r := limbs[..];
    assert r == limbs[..4] && bytes[..32] == bytes;
  }

  /** Writes four limbs as 32 bytes. */
  method BytesFromLimbs(limbs: seq<u64>) returns (out: seq<u8>)
    requires |limbs| == 4
    ensures |out| == 32 && LeVal(out) == Val(limbs)
  {
    out := [];
    for i := 0 to 4
      invariant |out| == 8 * i && LeVal(out) == Val(limbs[..i])
    {
      var chunk := LeBytes(limbs[i], 8);
      LimbChunk(limbs[i]);
      NextChunk(out, chunk, i);
      ValSnoc(limbs, i);
      out := out + chunk;
    }
    assert limbs[..4] == limbs;
  }
}
