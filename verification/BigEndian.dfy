/** Bytes, and big-endian numbers of a fixed number of bytes. */
module BigEndian {
  type byte = x: int | 0 <= x < 256
  type u16 = x: int | 0 <= x < 0x1_0000
  type u32 = x: int | 0 <= x < 0x1_0000_0000

  function Pow256(n: nat): (r: nat)
    ensures r > 0
  {
    if n == 0 then 1 else 256 * Pow256(n - 1)
  }

  /** The `n` low bytes of `x`, most significant first (`to_be_bytes`). */
  function BeBytes(x: nat, n: nat): (b: seq<byte>)
    ensures |b| == n
  {
    if n == 0 then [] else BeBytes(x / 256, n - 1) + [x % 256]
  }

  /** The number a big-endian byte string spells (`from_be_bytes`). */
  function BeVal(b: seq<byte>): (v: nat)
  {
    if b == [] then 0 else 256 * BeVal(b[..|b| - 1]) + b[|b| - 1]
  }

  lemma {:induction false} BeBytesVal(b: seq<byte>)
    ensures BeBytes(BeVal(b), |b|) == b && BeVal(b) < Pow256(|b|)
  {
    if b != [] {
      BeBytesVal(b[..|b| - 1]);
      assert b == b[..|b| - 1] + [b[|b| - 1]];
    }
  }

  lemma {:induction false} BeValBytes(x: nat, n: nat)
    requires x < Pow256(n)
    ensures BeVal(BeBytes(x, n)) == x
  {
    if n > 0 {
      BeValBytes(x / 256, n - 1);
      assert BeBytes(x, n)[..n - 1] == BeBytes(x / 256, n - 1);
    }
  }

  lemma Pow256Values()
    ensures Pow256(1) == 0x100 && Pow256(2) == 0x1_0000 && Pow256(3) == 0x100_0000 && Pow256(4) == 0x1_0000_0000
    ensures Pow256(8) == 0x1_0000_0000_0000_0000
    ensures Pow256(16) == 0x1_0000_0000_0000_0000_0000_0000_0000_0000
  {
    assert Pow256(2) == 256 * Pow256(1);
    assert Pow256(4) == 0x1_0000 * Pow256(2);
    assert Pow256(6) == 0x1_0000 * Pow256(4);
    assert Pow256(8) == 0x1_0000 * Pow256(6);
    assert Pow256(10) == 0x1_0000 * Pow256(8);
    assert Pow256(12) == 0x1_0000 * Pow256(10);
    assert Pow256(14) == 0x1_0000 * Pow256(12);
    assert Pow256(16) == 0x1_0000 * Pow256(14);
  }
}
