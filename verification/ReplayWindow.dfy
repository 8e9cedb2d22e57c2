/** Anti-replay protection of DTLS records by a multi-word sliding bitmap (tpt-dtls/src/replay.rs). */
module Replay {
  import opened Limbs
  import opened Bits

  const MAX_SEQUENCE: nat := 0xFF_FFFF_FFFF_FFFF

  datatype Verdict = Overflow | Accepted | Rejected

  /** Position `n` of the bitmap; positions past the last word are clear. */
  ghost predicate Seen(words: seq<u64>, n: nat)
  {
    n / 64 < |words| && Bit(words[n / 64], n % 64) == 1
  }

  /** The whole acceptance rule: new, and less than a window below every accepted number. */
  ghost predicate Fresh(accepted: set<nat>, window: nat, n: nat)
  {
    n !in accepted && forall a :: a in accepted ==> a < n + window
  }

  /** `window.max(64).next_multiple_of(64)` */
  function RoundWindow(window: nat): (w: nat)
    ensures w >= 64 && w >= window && w % 64 == 0 && (window > 64 ==> w < window + 64)
  {
    var w := if window < 64 then 64 else window;
    (w + 63) / 64 * 64
  }

  /** Word `i` of the bitmap after moving every bit `n` positions down. */
  function SlidWord(ws: seq<u64>, n: nat, i: nat): (w: u64)
  {
    var at, s := i + n / 64, n % 64;
    if at >= |ws| then 0
    else if s == 0 then ws[at]
    else if at + 1 < |ws| then Funnel(ws[at], ws[at + 1], s)
    else BitOfShifted(ws[at], s, 0); Shr(ws[at], s)
  }

  lemma SlidBit(ws: seq<u64>, n: nat, k: nat)
    requires k / 64 < |ws|
    ensures Bit(SlidWord(ws, n, k / 64), k % 64) == 1 <==> Seen(ws, k + n)
  {
    var at, s, j := k / 64 + n / 64, n % 64, k % 64;
    if j + s < 64 {
      assert (k + n) / 64 == at && (k + n) % 64 == j + s;
    } else {
      assert (k + n) / 64 == at + 1 && (k + n) % 64 == j + s - 64;
    }
    if at >= |ws| {
      DivModUnique(0, Pow2(j), 0, 0);
    } else if s == 0 {
    } else if at + 1 < |ws| {
      BitOfFunnel(ws[at], ws[at + 1], s, j);
    } else {
      BitOfShifted(ws[at], s, j);
    }
  }

  /** Sliding the words moves the set of seen positions. */
  lemma SlidSeen(was: seq<u64>, now: seq<u64>, n: nat)
    requires |now| == |was| && forall i :: 0 <= i < |now| ==> now[i] == SlidWord(was, n, i)
    ensures forall k: nat :: k < 64 * |now| ==> (Seen(now, k) <==> Seen(was, k + n))
  {
    forall k: nat | k < 64 * |now| ensures Seen(now, k) <==> Seen(was, k + n) {
      SlidBit(was, n, k);
    }
  }

  /** The bitmap `words` based at `base` holds the accepted numbers of its window. */
  ghost predicate Holds(words: seq<u64>, base: nat, accepted: set<nat>)
  {
    forall k: nat :: k < 64 * |words| ==> (Seen(words, k) <==> base + k in accepted)
  }

  /** Sliding from base `from` to base `to`, by at most a full window, keeps the bitmap exact. */
  lemma SlideKeepsSet(was: seq<u64>, now: seq<u64>, from: nat, to: nat, n: nat, accepted: set<nat>)
    requires |now| == |was| && forall i :: 0 <= i < |now| ==> now[i] == SlidWord(was, n, i)
    requires Holds(was, from, accepted) && forall a :: a in accepted ==> a < from + 64 * |was|
    requires from <= to && n == if to - from < 64 * |was| then to - from else 64 * |was|
    ensures Holds(now, to, accepted)
  {
    SlidSeen(was, now, n);
    forall k: nat | k < 64 * |now| ensures Seen(now, k) <==> to + k in accepted {
      assert Seen(now, k) <==> Seen(was, k + n);
      if k + n < 64 * |was| {
        assert to + k == from + (k + n);
      }
    }
  }

  class ReplayWindow {
    const window: nat
    var base: u64
    const words: array<u64>
    /** Every sequence number accepted so far. */
    ghost var accepted: set<nat>

    ghost predicate Valid()
      reads this, words
    {
      && 0 < window <= B63 && window == 64 * words.Length
      && base <= MAX_SEQUENCE
      && (forall a :: a in accepted ==> a < base + window)
      // the base is pinned by the highest accepted number
      && (base > 0 ==> base + window - 1 in accepted)
      && Holds(words[..], base, accepted)
    }

    constructor (size: nat)
      requires size <= B63
      ensures Valid() && fresh(words) && window == RoundWindow(size) && accepted == {}
    {
      window := RoundWindow(size);
      base := 0;
      words := new u64[RoundWindow(size) / 64](_ => 0);
      accepted := {};
      new;
      forall k: nat | k < window ensures !Seen(words[..], k) {
        DivModUnique(0, Pow2(k % 64), 0, 0);
      }
    }

    /** Moves the bitmap down by `n` positions, in place. */
    method WindowSlide(n: nat)
      requires words.Length > 0
      modifies words
      ensures forall i :: 0 <= i < words.Length ==> words[i] == SlidWord(old(words[..]), n, i)
    {
      if n == 0 { return; }
      var wordShift, bitShift, len := n / 64, n % 64, words.Length;
      if wordShift >= len {
        for i := 0 to len
          invariant forall j :: 0 <= j < i ==> words[j] == 0
        {
          words[i] := 0;
        }
        return;
      }
      ghost var was := words[..];
      var last := len - wordShift;
      if bitShift == 0 {
        for i := 0 to last
          invariant forall j :: 0 <= j < i ==> words[j] == SlidWord(was, n, j)
          invariant forall j :: i <= j < len ==> words[j] == was[j]
        {
          words[i] := words[i + wordShift];
        }
      } else {
        for i := 0 to last - 1
          invariant forall j :: 0 <= j < i ==> words[j] == SlidWord(was, n, j)
          invariant forall j :: i <= j < len ==> words[j] == was[j]
        {
          words[i] := Funnel(words[i + wordShift], words[i + wordShift + 1], bitShift);
        }
        BitOfShifted(words[len - 1], bitShift, 0);
        words[last - 1] := Shr(words[len - 1], bitShift);
      }
      for i := last to len
        invariant forall j :: 0 <= j < last ==> words[j] == SlidWord(was, n, j)
        invariant forall j :: last <= j < i ==> words[j] == 0
      {
        words[i] := 0;
      }
    }

    method Check(n: u64) returns (r: Verdict)
      requires Valid()
      modifies this, words
      ensures Valid()
      ensures r == if n > MAX_SEQUENCE then Overflow else if Fresh(old(accepted), window, n) then Accepted else Rejected
      ensures accepted == if r == Accepted then old(accepted) + {n} else old(accepted)
    {
      if n > MAX_SEQUENCE { return Overflow; }
      if n < base { return Rejected; }
      var top: u64 := base + window;
      if n >= top {
        Advance(n);
      }
      var bit := n - base;
      var word, k := bit / 64, bit % 64;
      if Bit(words[word], k) != 0 {
        assert Seen(words[..], bit);
        return Rejected;
      }
      assert !Seen(words[..], bit);
      ghost var was := words[..];
      BitOfSet(words[word], k, k);
      words[word] := words[word] + Pow2(k);
      accepted := accepted + {n};
      forall j: nat | j < window ensures Seen(words[..], j) <==> base + j in accepted {
        assert Seen(was, j) <==> base + j in old(accepted);
        if j / 64 == word { BitOfSet(was[word], k, j % 64); }
      }
      return Accepted;
    }

    /** Slides the window so that `n` becomes its highest position. */
    method Advance(n: u64)
      requires Valid() && base + window <= n <= MAX_SEQUENCE
      modifies `base, words
      ensures base == n + 1 - window
      ensures Holds(words[..], base, accepted)
    {
      var newBase := n + 1 - window;
      var shift := if newBase - base < window then newBase - base else window;
      ghost var was, from := words[..], base;
      WindowSlide(shift);
      base := newBase;
      SlideKeepsSet(was, words[..], from, base, shift, accepted);
    }
  }

  /** Every number accepted before position `i` differs from `ns[i]` and is less than a window above it. */
  ghost predicate FreshAt(ns: seq<u64>, rs: seq<Verdict>, window: nat, i: nat)
    requires i < |ns| && i <= |rs|
  {
    forall j :: 0 <= j < i && rs[j] == Accepted ==> ns[j] != ns[i] && ns[j] < ns[i] + window
  }

  /** The verdicts of a run follow from the verdicts before them. */
  ghost predicate Lawful(ns: seq<u64>, rs: seq<Verdict>, window: nat)
    requires |rs| <= |ns|
  {
    forall i :: 0 <= i < |rs| ==>
      rs[i] == if ns[i] > MAX_SEQUENCE then Overflow else if FreshAt(ns, rs, window, i) then Accepted else Rejected
  }

  lemma LawfulExtend(ns: seq<u64>, rs: seq<Verdict>, r: Verdict, window: nat)
    requires |rs| < |ns| && Lawful(ns, rs, window)
    requires r == if ns[|rs|] > MAX_SEQUENCE then Overflow else if FreshAt(ns, rs, window, |rs|) then Accepted else Rejected
    ensures Lawful(ns, rs + [r], window)
  {
    forall i | 0 <= i <= |rs| ensures FreshAt(ns, rs + [r], window, i) <==> FreshAt(ns, rs, window, i) {
    }
  }

  ghost predicate AcceptedBy(ns: seq<u64>, rs: seq<Verdict>, accepted: set<nat>)
    requires |rs| <= |ns|
  {
    && (forall j :: 0 <= j < |rs| && rs[j] == Accepted ==> ns[j] in accepted)
    && (forall a :: a in accepted ==> exists j :: 0 <= j < |rs| && rs[j] == Accepted && ns[j] == a)
  }

  lemma FreshMatches(ns: seq<u64>, rs: seq<Verdict>, accepted: set<nat>, window: nat)
    requires |rs| < |ns| && AcceptedBy(ns, rs, accepted)
    ensures Fresh(accepted, window, ns[|rs|]) <==> FreshAt(ns, rs, window, |rs|)
  {
    if FreshAt(ns, rs, window, |rs|) {
      forall a | a in accepted ensures a != ns[|rs|] && a < ns[|rs|] + window {
        var j :| 0 <= j < |rs| && rs[j] == Accepted && ns[j] == a;
      }
    }
  }

  /** Any run of `Check` on a new window: each verdict is fixed by the numbers accepted before it. */
  method CheckAll(size: nat, ns: seq<u64>) returns (rs: seq<Verdict>)
    requires size <= B63
    ensures |rs| == |ns| && Lawful(ns, rs, RoundWindow(size))
  {
    var w := new ReplayWindow(size);
    rs := [];
    for i := 0 to |ns|
      invariant fresh(w) && fresh(w.words) && w.Valid() && w.window == RoundWindow(size)
      invariant |rs| == i && Lawful(ns, rs, RoundWindow(size))
      invariant AcceptedBy(ns, rs, w.accepted)
    {
      FreshMatches(ns, rs, w.accepted, w.window);
      var r := w.Check(ns[i]);
      LawfulExtend(ns, rs, r, RoundWindow(size));
      rs := rs + [r];
    }
  }

  /** A number of more than 48 bits, but at most 56, is accepted by a new window. */
  method LargeAccepted(size: nat, n: u64) returns (r: Verdict)
    requires size <= B63 && 0x1_0000_0000_0000 <= n < 0x100_0000_0000_0000
    ensures r == Accepted
  {
    var w := new ReplayWindow(size);
    r := w.Check(n);
  }
}
