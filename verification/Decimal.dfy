/** Decimal numbers as text: printing, padding and what the standard integer parsers accept. */
module Decimal {
  import opened Wrappers

  predicate IsDigit(c: char)
  {
    '0' <= c <= '9'
  }

  predicate AllDigits(s: string)
  {
    forall i :: 0 <= i < |s| ==> IsDigit(s[i])
  }

  function DigitChar(d: nat): (c: char)
    requires d < 10
    ensures IsDigit(c)
  {
    (48 + d) as char
  }

  function DigitValue(c: char): (d: nat)
    requires IsDigit(c)
    ensures d < 10
  {
    c as int - 48
  }

  function Number(s: string): (n: nat)
    requires AllDigits(s)
  {
    if s == "" then 0 else 10 * Number(s[..|s| - 1]) + DigitValue(s[|s| - 1])
  }

  function Print(n: nat): (s: string)
    ensures s != "" && AllDigits(s)
  {
    if n < 10 then [DigitChar(n)] else Print(n / 10) + [DigitChar(n % 10)]
  }

  /** A number with at least `width` digits. */
  function Padded(n: nat, width: nat): (s: string)
    ensures s != "" && AllDigits(s)
  {
    var p := Print(n);
    Zeros(width - |p|) + p
  }

  function Zeros(n: int): (s: string)
    ensures AllDigits(s)
  {
    if n <= 0 then "" else Zeros(n - 1) + "0"
  }

  lemma {:induction false} NumberPrinted(n: nat)
    ensures Number(Print(n)) == n
  {
    if n >= 10 {
      NumberPrinted(n / 10);
      assert Print(n)[..|Print(n)| - 1] == Print(n / 10);
    } else {
      assert Print(n)[..0] == "";
    }
  }

  lemma {:induction false} ZerosAreZero(n: int)
    ensures Number(Zeros(n)) == 0
  {
    if n > 0 {
      var z := Zeros(n - 1);
      ZerosAreZero(n - 1);
      assert (z + "0")[..|z|] == z;
    }
  }

  /** Leading zeros do not change the number. */
  lemma {:induction false} NumberAfter(z: string, s: string)
    requires AllDigits(z) && AllDigits(s) && Number(z) == 0
    ensures Number(z + s) == Number(s)
  {
    if s == "" {
      assert z + s == z;
    } else {
      var all, init := z + s, s[..|s| - 1];
      NumberAfter(z, init);
      assert all[..|all| - 1] == z + init;
      assert all[|all| - 1] == s[|s| - 1];
    }
  }

  lemma NumberPadded(n: nat, width: nat)
    ensures Number(Padded(n, width)) == n
  {
    NumberPrinted(n);
    ZerosAreZero(width - |Print(n)|);
    NumberAfter(Zeros(width - |Print(n)|), Print(n));
  }

  /** `parse::<u32>`: an optional plus sign and digits, in range. */
  function ParseUnsigned(s: string): (r: Option<nat>)
  {
    var t := if s != "" && s[0] == '+' then s[1..] else s;
    if t != "" && AllDigits(t) && Number(t) < 0x1_0000_0000 then Some(Number(t)) else None
  }

  /** `parse::<i64>`: an optional sign and digits, in range. */
  function ParseSigned(s: string): (r: Option<int>)
  {
    var negative := s != "" && s[0] == '-';
    var t := if s != "" && (s[0] == '+' || s[0] == '-') then s[1..] else s;
    if t == "" || !AllDigits(t) then None
    else
      var n: int := Number(t);
      if negative then if n <= 0x8000_0000_0000_0000 then Some(-n) else None
      else if n < 0x8000_0000_0000_0000 then Some(n) else None
  }

  lemma UnsignedPadded(n: nat, width: nat)
    requires n < 0x1_0000_0000
    ensures ParseUnsigned(Padded(n, width)) == Some(n)
  {
    NumberPadded(n, width);
    assert IsDigit(Padded(n, width)[0]);
  }

  lemma SignedPadded(n: nat, width: nat)
    requires n < 0x8000_0000_0000_0000
    ensures ParseSigned(Padded(n, width)) == Some(n)
  {
    NumberPadded(n, width);
    assert IsDigit(Padded(n, width)[0]);
  }
}
