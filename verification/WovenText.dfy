/**
 Texts that alternate between fixed separators and values: when the text tells the values. A separator is a line
 break and a label that has none, as a component identifier before its value in a signature base.
 */
module WovenText {
  predicate Separates(sep: string)
  {
    |sep| >= 2 && sep[0] == '\n' && forall i :: 1 <= i < |sep| ==> sep[i] != '\n'
  }

  predicate AllSeparate(seps: seq<string>)
  {
    forall i :: 0 <= i < |seps| ==> Separates(seps[i])
  }

  /** Each separator before its value, and a line break at the end. */
  function Woven(seps: seq<string>, vs: seq<string>): (s: string)
    requires |seps| == |vs|
    ensures s != ""
  {
    if vs == [] then "\n" else seps[0] + (vs[0] + Woven(seps[1..], vs[1..]))
  }

  predicate OccursAt(sep: string, s: string, p: nat)
  {
    p + |sep| <= |s| && s[p..p + |sep|] == sep
  }

  predicate Holds(s: string, sep: string)
  {
    exists p :: 0 <= p <= |s| && OccursAt(sep, s, p)
  }

  /** No value holds the separator after it, nor, but for the first, the one before it. */
  predicate Clean(seps: seq<string>, vs: seq<string>)
    requires |seps| == |vs|
  {
    && (forall k :: 0 <= k < |vs| - 1 ==> !Holds(vs[k], seps[k + 1]))
    && (forall k :: 1 <= k < |vs| ==> !Holds(vs[k], seps[k]))
  }

  // ----- Clean values can be told -----

  lemma StartsWithBreak(seps: seq<string>, vs: seq<string>)
    requires |seps| == |vs| && AllSeparate(seps)
    ensures Woven(seps, vs)[0] == '\n'
  {}

  /** An occurrence that starts in a value lies in it. */
  lemma Inside(sep: string, v: string, t: string, p: nat)
    requires Separates(sep) && t != "" && t[0] == '\n' && p < |v| && OccursAt(sep, v + t, p)
    ensures OccursAt(sep, v, p)
  {
    assert (v + t)[|v|] == '\n';
    assert v[p..p + |sep|] == (v + t)[p..p + |sep|];
  }

  /** What follows a prefix `y` of a separator and more, and starts with a line break, follows the whole separator. */
  lemma PastSeparator(sep: string, rest: string, y: string, t: string) returns (x: string)
    requires Separates(sep) && sep + rest == y + t && y != "" && t != "" && t[0] == '\n'
    ensures y == sep + x && rest == x + t
  {
    assert (y + t)[|y|] == '\n';
    x := y[|sep|..];
    assert sep == (sep + rest)[..|sep|] == (y + t)[..|sep|] == y[..|sep|];
    assert rest == (sep + rest)[|sep|..] == (y + t)[|sep|..] == x + t;
  }

  lemma OccursBetween(x: string, sep: string, t: string)
    ensures OccursAt(sep, x + (sep + t), |x|)
  {}

  /** Values that do not hold their own separators leave no room for all of the separators after the first value. */
  lemma {:induction false} NoRoom(seps: seq<string>, vs: seq<string>, ws: seq<string>, x: string)
    requires |seps| == |vs| == |ws| > 0 && AllSeparate(seps)
    requires forall k :: 0 <= k < |vs| ==> !Holds(vs[k], seps[k])
    requires vs[0] + Woven(seps[1..], vs[1..]) == x + Woven(seps, ws)
    ensures false
    decreases |seps|, 1
  {
    var tail, more := Woven(seps[1..], vs[1..]), ws[0] + Woven(seps[1..], ws[1..]);
    StartsWithBreak(seps[1..], vs[1..]);
    OccursBetween(x, seps[0], more);
    if |x| < |vs[0]| {
      Inside(seps[0], vs[0], tail, |x|);
    } else {
      var y := x[|vs[0]|..];
      Dropped(vs[0], tail, x, Woven(seps, ws));
      assert tail == y + (seps[0] + more);
      LongTail(seps, vs, ws, y);
    }
  }

  lemma Dropped(v: string, tail: string, x: string, t: string)
    requires v + tail == x + t && |v| <= |x|
    ensures x == v + x[|v|..] && tail == x[|v|..] + t
  {
    assert v == (v + tail)[..|v|] == (x + t)[..|v|] == x[..|v|];
    assert tail == (v + tail)[|v|..] == (x + t)[|v|..];
  }

  lemma {:induction false} LongTail(seps: seq<string>, vs: seq<string>, ws: seq<string>, y: string)
    requires |seps| == |vs| == |ws| > 0 && AllSeparate(seps)
    requires forall k :: 0 <= k < |vs| ==> !Holds(vs[k], seps[k])
    requires Woven(seps[1..], vs[1..]) == y + (seps[0] + (ws[0] + Woven(seps[1..], ws[1..])))
    ensures false
    decreases |seps|, 0
  {
    var after := Woven(seps[1..], ws[1..]);
    var before := y + (seps[0] + ws[0]);
    assert y + (seps[0] + (ws[0] + after)) == before + after;
    if |vs| == 1 {
      assert false;
    }
    StartsWithBreak(seps[1..], ws[1..]);
    var rest := vs[1] + Woven(seps[1..][1..], vs[1..][1..]);
    assert Woven(seps[1..], vs[1..]) == seps[1] + rest;
    var x := PastSeparator(seps[1], rest, before, after);
    NoRoom(seps[1..], vs[1..], ws[1..], x);
  }

  /** The text tells its values, if they are clean. */
  lemma {:induction false} CleanIsTold(seps: seq<string>, vs: seq<string>, ws: seq<string>)
    requires |seps| == |vs| == |ws| && AllSeparate(seps) && Clean(seps, vs) && Woven(seps, vs) == Woven(seps, ws)
    ensures vs == ws
  {
    if vs != [] {
      var st, vt, wt := seps[1..], vs[1..], ws[1..];
      SamePrefix(seps[0], vs[0] + Woven(st, vt), ws[0] + Woven(st, wt));
      FirstIsTold(seps, vs, ws);
      SamePrefix(vs[0], Woven(st, vt), Woven(st, wt));
      assert Clean(st, vt) by { CleanTail(seps, vs); }
      CleanIsTold(st, vt, wt);
      assert vs == [vs[0]] + vt && ws == [ws[0]] + wt;
    }
  }

  lemma CleanTail(seps: seq<string>, vs: seq<string>)
    requires |seps| == |vs| > 0 && Clean(seps, vs)
    ensures Clean(seps[1..], vs[1..])
  {
    forall k | 0 <= k < |vs| - 2 ensures !Holds(vs[1..][k], seps[1..][k + 1]) { assert !Holds(vs[k + 1], seps[k + 2]); }
    forall k | 1 <= k < |vs| - 1 ensures !Holds(vs[1..][k], seps[1..][k]) { assert !Holds(vs[k + 1], seps[k + 1]); }
  }

  lemma SamePrefix(head: string, a: string, b: string)
    requires head + a == head + b
    ensures a == b
  {
    assert a == (head + a)[|head|..] && b == (head + b)[|head|..];
  }

  lemma {:induction false} FirstIsTold(seps: seq<string>, vs: seq<string>, ws: seq<string>)
    requires |seps| == |vs| == |ws| > 0 && AllSeparate(seps) && Clean(seps, vs)
    requires vs[0] + Woven(seps[1..], vs[1..]) == ws[0] + Woven(seps[1..], ws[1..])
    ensures vs[0] == ws[0]
  {
    var v, w, vt, wt := vs[0], ws[0], Woven(seps[1..], vs[1..]), Woven(seps[1..], ws[1..]);
    if |vs| == 1 {
      assert vt == "\n" && wt == "\n";
      SameLength(v, vt, w, wt);
    } else {
      StartsWithBreak(seps[1..], vs[1..]);
      StartsWithBreak(seps[1..], ws[1..]);
      if |w| < |v| {
        OccursBetween(w, seps[1], ws[1] + Woven(seps[1..][1..], ws[1..][1..]));
        Inside(seps[1], v, vt, |w|);
        assert false;
      }
      Dropped(v, vt, w, wt);
      if |w| > |v| {
        TooLong(seps, vs, ws, w[|v|..]);
        assert false;
      }
      SameLength(v, vt, w, wt);
    }
  }

  lemma SameLength(a: string, s: string, b: string, t: string)
    requires a + s == b + t && (|a| == |b| || |s| == |t|)
    ensures a == b && s == t
  {
    assert |a + s| == |b + t|;
    assert a == (a + s)[..|a|] && b == (b + t)[..|b|];
    assert s == (a + s)[|a|..] && t == (b + t)[|b|..];
  }

  lemma TooLong(seps: seq<string>, vs: seq<string>, ws: seq<string>, y: string)
    requires |seps| == |vs| == |ws| > 1 && AllSeparate(seps) && Clean(seps, vs)
    requires y != "" && Woven(seps[1..], vs[1..]) == y + Woven(seps[1..], ws[1..])
    ensures false
  {
    var rest := vs[1] + Woven(seps[1..][1..], vs[1..][1..]);
    StartsWithBreak(seps[1..], ws[1..]);
    assert Woven(seps[1..], vs[1..]) == seps[1] + rest;
    var x := PastSeparator(seps[1], rest, y, Woven(seps[1..], ws[1..]));
    forall k | 0 <= k < |vs| - 1 ensures !Holds(vs[1..][k], seps[1..][k]) { assert !Holds(vs[k + 1], seps[k + 1]); }
    NoRoom(seps[1..], vs[1..], ws[1..], x);
  }

  // ----- Other values have another reading -----

  lemma {:induction false} WovenFrom(seps: seq<string>, vs: seq<string>, ws: seq<string>, k: nat)
    requires |seps| == |vs| == |ws| && k <= |vs| && vs[..k] == ws[..k] && Woven(seps[k..], vs[k..]) == Woven(seps[k..], ws[k..])
    ensures Woven(seps, vs) == Woven(seps, ws)
  {
    if k == 0 {
      assert seps[0..] == seps && vs[0..] == vs && ws[0..] == ws;
    } else {
      assert vs[0] == vs[..k][0] == ws[..k][0] == ws[0];
      assert vs[1..][..k - 1] == vs[..k][1..] && ws[1..][..k - 1] == ws[..k][1..];
      assert seps[1..][k - 1..] == seps[k..] && vs[1..][k - 1..] == vs[k..] && ws[1..][k - 1..] == ws[k..];
      WovenFrom(seps[1..], vs[1..], ws[1..], k - 1);
    }
  }

  /** Two values around a separator, which can move if the text between holds it again. */
  lemma MovedAcross(seps: seq<string>, vs: seq<string>, ws: seq<string>, k: nat, a: string, b: string, c: string)
    requires |seps| == |vs| == |ws| && k + 1 < |vs|
    requires vs[k] == a + (seps[k + 1] + b) && vs[k + 1] == c
    requires ws == vs[k := a][k + 1 := b + (seps[k + 1] + c)]
    ensures Woven(seps, vs) == Woven(seps, ws)
  {
    var s, sep := seps[k..], seps[k + 1];
    var v, w := vs[k..], ws[k..];
    assert v[1..][1..] == w[1..][1..];
    var rest := Woven(s[1..][1..], v[1..][1..]);
    assert Woven(s, v) == s[0] + ((a + (sep + b)) + (sep + (c + rest)));
    assert Woven(s, w) == s[0] + (a + (sep + ((b + (sep + c)) + rest)));
    Regrouped(a, sep, b, c, rest);
    assert vs[..k] == ws[..k];
    WovenFrom(seps, vs, ws, k);
  }

  lemma Regrouped(a: string, sep: string, b: string, c: string, rest: string)
    ensures (a + (sep + b)) + (sep + (c + rest)) == a + (sep + ((b + (sep + c)) + rest))
  {
    assert (b + (sep + c)) + rest == b + (sep + (c + rest));
    assert (a + (sep + b)) + (sep + (c + rest)) == a + (sep + (b + (sep + (c + rest))));
  }

  lemma SplitAt(s: string, sep: string) returns (a: string, b: string)
    requires Holds(s, sep)
    ensures s == a + (sep + b)
  {
    var p :| 0 <= p <= |s| && OccursAt(sep, s, p);
    a, b := s[..p], s[p + |sep|..];
    assert s == s[..p] + (s[p..p + |sep|] + s[p + |sep|..]);
  }

  /** Values that are not clean make the same text as other values. */
  lemma OtherReading(seps: seq<string>, vs: seq<string>) returns (ws: seq<string>)
    requires |seps| == |vs| && AllSeparate(seps) && !Clean(seps, vs)
    ensures |ws| == |vs| && ws != vs && Woven(seps, ws) == Woven(seps, vs)
  {
    if k :| 0 <= k < |vs| - 1 && Holds(vs[k], seps[k + 1]) {
      var a, b := SplitAt(vs[k], seps[k + 1]);
      ws := vs[k := a][k + 1 := b + (seps[k + 1] + vs[k + 1])];
      MovedAcross(seps, vs, ws, k, a, b, vs[k + 1]);
      assert |ws[k]| < |vs[k]|;
    } else {
      var k :| 1 <= k < |vs| && Holds(vs[k], seps[k]);
      var a, b := SplitAt(vs[k], seps[k]);
      ws := vs[k - 1 := vs[k - 1] + (seps[k] + a)][k := b];
      assert vs == ws[k - 1 := vs[k - 1]][k := a + (seps[k] + b)];
      MovedAcross(seps, ws, vs, k - 1, vs[k - 1], a, b);
      assert |ws[k]| < |vs[k]|;
    }
  }
}
