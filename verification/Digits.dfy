/** Numbers written in digits, one byte each. */
module Digits {
  import opened Basics

  const ZERO: Byte := 0x30

  datatype Base = Ten | Eight

  function Radix(b: Base): nat { if b == Ten then 10 else 8 }

  function Shift(n: nat, b: Base): nat { if b == Ten then 10 * n else 8 * n }

  function Over(n: nat, b: Base): (q: nat)
    ensures Shift(q, b) <= n < Shift(q, b) + Radix(b)
  {
    if b == Ten then n / 10 else n / 8
  }

  function DigitOf(n: nat): Byte
    requires n < 10
  {
    ZERO + n as Byte
  }

  predicate IsDigit(c: Byte, b: Base) { ZERO <= c && (c - ZERO) as nat < Radix(b) }

  function DigitValue(c: Byte): nat { if ZERO <= c then (c - ZERO) as nat else 0 }

  function DigitsOf(n: nat, b: Base): (s: seq<Byte>)
    ensures s != []
    decreases n
  {
    if n < Radix(b) then [DigitOf(n)] else DigitsOf(Over(n, b), b) + [DigitOf(n - Shift(Over(n, b), b))]
  }

  predicate AllDigits(s: seq<Byte>, b: Base) { forall i :: 0 <= i < |s| ==> IsDigit(s[i], b) }

  function Value(s: seq<Byte>, b: Base): nat {
    if s == [] then 0 else Shift(Value(s[..|s| - 1], b), b) + DigitValue(s[|s| - 1])
  }

  lemma {:induction false} DigitsValue(n: nat, b: Base)
    ensures AllDigits(DigitsOf(n, b), b) && Value(DigitsOf(n, b), b) == n
    decreases n
  {
    if n >= Radix(b) {
      var q := Over(n, b);
      DigitsValue(q, b);
      var s := DigitsOf(n, b);
      assert s[..|s| - 1] == DigitsOf(q, b);
    }
  }

  lemma {:induction false} LeadingZero(s: seq<Byte>, b: Base)
    requires AllDigits(s, b)
    ensures AllDigits([ZERO] + s, b) && Value([ZERO] + s, b) == Value(s, b)
  {
    var z := [ZERO] + s;
    if s == [] {
      assert z[..|z| - 1] == [];
    } else {
      LeadingZero(s[..|s| - 1], b);
      assert z[..|z| - 1] == [ZERO] + s[..|s| - 1];
    }
  }

  /** Digits that are cut off make the number smaller. */
  lemma {:induction false} PrefixSmaller(s: seq<Byte>, k: nat, b: Base)
    requires AllDigits(s, b) && k <= |s|
    ensures AllDigits(s[..k], b) && Value(s[..k], b) <= Value(s, b)
    ensures k < |s| && Value(s, b) > 0 ==> Value(s[..k], b) < Value(s, b)
  {
    if k < |s| {
      var t := s[..|s| - 1];
      PrefixSmaller(t, k, b);
      assert t[..k] == s[..k];
    } else {
      assert s[..k] == s;
    }
  }

  function Power(b: Base, k: nat): nat { if k == 0 then 1 else Shift(Power(b, k - 1), b) }

  /** A number has at most k digits if and only if it is below the k-th power of the base. */
  lemma {:induction false} DigitsLengthIff(n: nat, b: Base, k: nat)
    requires k >= 1
    ensures |DigitsOf(n, b)| <= k <==> n < Power(b, k)
    decreases k
  {
    if k == 1 {
      assert Power(b, 1) == Radix(b);
    } else if n >= Radix(b) {
      DigitsLengthIff(Over(n, b), b, k - 1);
    } else {
      PowerGrows(b, k);
    }
  }

  lemma {:induction false} PowerGrows(b: Base, k: nat)
    requires k >= 1
    ensures Power(b, k) >= Radix(b)
  {
    if k > 1 { PowerGrows(b, k - 1); }
  }

  lemma Powers()
    ensures Power(Ten, 5) == 100000 && Power(Ten, 6) == 1000000
    ensures Power(Ten, 9) == 1000000000 && Power(Ten, 10) == 10000000000
    ensures Power(Ten, 11) == 100000000000 && Power(Ten, 12) == 1000000000000
    ensures Power(Eight, 6) == 262144 && Power(Eight, 7) == 2097152
  {
  }

  /** The number a text of digits stands for in positional notation. */
  function Polynomial(text: seq<Byte>, radix: nat): int {
    if text == [] then 0 else radix * Polynomial(text[..|text| - 1], radix) + (text[|text| - 1] as int - 0x30)
  }

  /** The usual way to write a number: digits from "0" on, and no needless zero in front. */
  predicate Numeral(text: seq<Byte>, n: nat, radix: nat) {
    && text != [] && Polynomial(text, radix) == n && (text[0] == 0x30 ==> |text| == 1)
    && forall i :: 0 <= i < |text| ==> 0x30 <= text[i] as int < 0x30 + radix
  }

  lemma {:induction false} DigitsNumeral(n: nat, b: Base)
    ensures Numeral(DigitsOf(n, b), n, if b == Ten then 10 else 8)
    decreases n
  {
    var s, radix := DigitsOf(n, b), if b == Ten then 10 else 8;
    if n >= Radix(b) {
      var q := Over(n, b);
      DigitsNumeral(q, b);
      assert s[..|s| - 1] == DigitsOf(q, b);
      NoZero(q, b);
      assert Polynomial(s, radix) == n;
    } else {
      assert s[..0] == [];
    }
  }

  lemma {:induction false} NoZero(n: nat, b: Base)
    requires n > 0
    ensures DigitsOf(n, b)[0] != 0x30
    decreases n
  {
    if n >= Radix(b) { NoZero(Over(n, b), b); }
  }
}
