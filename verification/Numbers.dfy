/** Overflow-checked parsing of decimal integers. */
module Numbers {
  import opened Basics
  import opened Digits

  newtype Int32 = x: int | -0x8000_0000 <= x < 0x8000_0000
  type Text = seq<Byte>

  const PLUS: Byte := 0x2B
  const MINUS: Byte := 0x2D

  const INT_MAX := 0x7FFF_FFFF
  const INT_MIN := -0x8000_0000

  predicate IsSpace(c: Byte) { 9 <= c <= 13 || c == 32 }

  /** `kAsciiToInt`: digits and letters of bases up to 36, and 36 for everything else. */
  function AsciiToInt(c: Byte): (d: Int32)
    ensures 0 <= d <= 36
    ensures d < 10 <==> 0x30 <= c <= 0x39
  {
    if 0x30 <= c <= 0x39 then (c - 0x30) as Int32
    else if 0x41 <= c <= 0x5A then (c - 0x41) as Int32 + 10
    else if 0x61 <= c <= 0x7A then (c - 0x61) as Int32 + 10
    else 36
  }

  // ---------------------------------------------------------------- what a text means

  /** What `c_str()` shows: the text up to its first NUL. */
  function CString(text: Text): Text { if text == [] || text[0] == 0 then [] else [text[0]] + CString(text[1..]) }

  function SkipSpaces(s: Text): Text { if s != [] && IsSpace(s[0]) then SkipSpaces(s[1..]) else s }

  predicate AllSpaces(s: Text) { forall i :: 0 <= i < |s| ==> IsSpace(s[i]) }

  /** The digits that s begins with. */
  function DigitRun(s: Text): (k: nat)
    ensures k <= |s| && AllDigits(s[..k], Ten)
    ensures k < |s| ==> !IsDigit(s[k], Ten)
  {
    if s == [] || !IsDigit(s[0], Ten) then 0
    else
      var k := 1 + DigitRun(s[1..]);
      assert s[..k] == [s[0]] + s[1..][..k - 1];
      k
  }

  function Signed(negative: bool, n: nat): int { if negative then 0 - n else n }

  function Clamp(n: int): int { if n > INT_MAX then INT_MAX else if n < INT_MIN then INT_MIN else n }

  datatype Answer = Answer(ok: bool, value: int)

  /** Digits up to the end, within range; a number out of range is clamped, and what was
      read before a character that is no digit is reported with the failure. */
  function ReadDigits(s: Text, negative: bool): Answer {
    var n := Signed(negative, Value(s[..DigitRun(s)], Ten));
    Answer(DigitRun(s) == |s| && Clamp(n) == n, Clamp(n))
  }

  predicate HasSign(s: Text) { s != [] && (s[0] == MINUS || s[0] == PLUS) }

  predicate IsNegative(s: Text) { s != [] && s[0] == MINUS }

  function AfterSign(s: Text): Text { if HasSign(s) then s[1..] else s }

  function ReadSigned(s: Text): Answer {
    if AfterSign(s) == [] then Answer(false, 0) else ReadDigits(AfterSign(s), IsNegative(s))
  }

  function Reading(text: Text): Answer { ReadSigned(SkipSpaces(CString(text))) }

  // ---------------------------------------------------------------- the grammar

  predicate Sign(s: Text) { s == [] || s == [PLUS] || s == [MINUS] }

  /** White space, an optional sign and at least one digit, and nothing after. */
  predicate Numeral(s: Text, lead: Text, sign: Text, digits: Text) {
    s == lead + (sign + digits) && AllSpaces(lead) && Sign(sign) && digits != [] && AllDigits(digits, Ten)
  }

  lemma {:induction false} SkipLead(lead: Text, t: Text)
    requires AllSpaces(lead) && (t == [] || !IsSpace(t[0]))
    ensures SkipSpaces(lead + t) == t
  {
    if lead == [] {
      assert lead + t == t;
    } else {
      assert (lead + t)[1..] == lead[1..] + t;
      SkipLead(lead[1..], t);
    }
  }

  lemma {:induction false} SkipSplits(s: Text) returns (lead: Text)
    ensures AllSpaces(lead) && s == lead + SkipSpaces(s)
  {
    if s == [] || !IsSpace(s[0]) {
      lead := [];
      assert s == [] + s;
    } else {
      var l := SkipSplits(s[1..]);
      lead := [s[0]] + l;
      assert s == [s[0]] + s[1..];
      assert [s[0]] + (l + SkipSpaces(s)) == [s[0]] + l + SkipSpaces(s);
    }
  }

  lemma RunOfDigits(s: Text)
    ensures DigitRun(s) == |s| <==> AllDigits(s, Ten)
  {
    assert s[..|s|] == s;
  }

  lemma NumeralReads(text: Text, lead: Text, sign: Text, digits: Text)
    requires Numeral(CString(text), lead, sign, digits)
    ensures var n := Signed(sign == [MINUS], Value(digits, Ten));
            Reading(text) == Answer(INT_MIN <= n <= INT_MAX, Clamp(n))
  {
    var t := sign + digits;
    assert IsDigit(digits[0], Ten);
    assert t[0] == if sign == [] then digits[0] else sign[0];
    SkipLead(lead, t);
    assert (if sign == [] then t else t[1..]) == digits;
    RunOfDigits(digits);
    assert digits[..|digits|] == digits;
  }

  lemma OkIsNumeral(text: Text) returns (lead: Text, sign: Text, digits: Text)
    requires Reading(text).ok
    ensures Numeral(CString(text), lead, sign, digits)
  {
    var s := CString(text);
    lead := SkipSplits(s);
    var t := SkipSpaces(s);
    if t != [] && (t[0] == MINUS || t[0] == PLUS) {
      sign, digits := t[..1], t[1..];
    } else {
      sign, digits := [], t;
    }
    assert sign + digits == t;
    RunOfDigits(digits);
  }

  /** The text is a numeral of value v. */
  predicate Spells(text: Text, lead: Text, sign: Text, digits: Text, v: int) {
    Numeral(CString(text), lead, sign, digits) && v == Signed(sign == [MINUS], Value(digits, Ten))
  }

  /** The call succeeds with v if and only if the text is a numeral whose value is v and v is
      in range. */
  lemma SucceedsIff(text: Text, v: int)
    ensures Reading(text) == Answer(true, v) <==>
            INT_MIN <= v <= INT_MAX && exists lead, sign, digits :: Spells(text, lead, sign, digits, v)
  {
    if Reading(text) == Answer(true, v) {
      var lead, sign, digits := OkIsNumeral(text);
      NumeralReads(text, lead, sign, digits);
      assert Spells(text, lead, sign, digits, v);
    }
    if INT_MIN <= v <= INT_MAX && exists lead, sign, digits :: Spells(text, lead, sign, digits, v) {
      var lead, sign, digits :| Spells(text, lead, sign, digits, v);
      NumeralReads(text, lead, sign, digits);
    }
  }

  /** "5 " is refused, although the sign parser has trimmed it. */
  lemma TrailingSpaceFails()
    ensures Reading([0x35, 0x20]) == Answer(false, 5)
  {
    var s: Text := [0x35, 0x20];
    NoNul(s);
    assert SkipSpaces(s) == s && AfterSign(s) == s;
    assert s[1..] == [0x20] && DigitRun(s) == 1;
    assert s[..1] == [0x35] && [0x35][..0] == [] && Value([0x35], Ten) == 5;
  }

  // ---------------------------------------------------------------- printing and reading back

  function Printed(n: int): Text { if n < 0 then [MINUS] + DigitsOf(-n, Ten) else DigitsOf(n, Ten) }

  lemma {:induction false} NoNul(s: Text)
    requires forall i :: 0 <= i < |s| ==> s[i] != 0
    ensures CString(s) == s
  {
    if s != [] {
      NoNul(s[1..]);
      assert s == [s[0]] + s[1..];
    }
  }

  /** Every integer that fits is read back from its decimal text, and every other one fails
      with the nearest that does. */
  lemma PrintedReads(n: int)
    ensures Reading(Printed(n)) == Answer(INT_MIN <= n <= INT_MAX, Clamp(n))
  {
    if n < 0 {
      DigitsValue(-n, Ten);
      SpelledReads([MINUS], DigitsOf(-n, Ten));
    } else {
      DigitsValue(n, Ten);
      Nothing(DigitsOf(n, Ten));
      SpelledReads([], DigitsOf(n, Ten));
    }
  }

  lemma SpelledReads(sign: Text, digits: Text)
    requires Sign(sign) && digits != [] && AllDigits(digits, Ten)
    ensures var n := Signed(sign == [MINUS], Value(digits, Ten));
            Reading(sign + digits) == Answer(INT_MIN <= n <= INT_MAX, Clamp(n))
  {
    var text := sign + digits;
    forall i | 0 <= i < |text| ensures text[i] != 0 {
      if i >= |sign| { assert IsDigit(digits[i - |sign|], Ten); }
    }
    NoNul(text);
    Nothing(text);
    NumeralReads(text, [], sign, digits);
  }

  // ---------------------------------------------------------------- the digit loops

  lemma NextDigit(s: Text, i: nat)
    requires i < |s| && AllDigits(s[..i], Ten) && IsDigit(s[i], Ten)
    ensures AllDigits(s[..i + 1], Ten) && Value(s[..i + 1], Ten) == 10 * Value(s[..i], Ten) + (s[i] - ZERO) as nat
  {
    assert s[..i + 1] == s[..i] + [s[i]];
    assert s[..i + 1][..i] == s[..i];
  }

  /** A prefix of digits is no longer than the run, nor larger. */
  lemma InRun(s: Text, i: nat)
    requires i <= |s| && AllDigits(s[..i], Ten)
    ensures i <= DigitRun(s) && Value(s[..i], Ten) <= Value(s[..DigitRun(s)], Ten)
  {
    var k := DigitRun(s);
    assert forall j :: 0 <= j < i ==> s[..i][j] == s[j];
    PrefixSmaller(s[..k], i, Ten);
    assert s[..k][..i] == s[..i];
  }

  lemma RunEndsAt(s: Text, i: nat)
    requires i <= |s| && AllDigits(s[..i], Ten) && (i < |s| ==> !IsDigit(s[i], Ten))
    ensures DigitRun(s) == i
  {
    InRun(s, i);
    var k := DigitRun(s);
    assert forall j :: 0 <= j < k ==> s[..k][j] == s[j];
  }

  lemma TooLarge(s: Text, i: nat, negative: bool)
    requires i <= |s| && AllDigits(s[..i], Ten)
    requires Clamp(Signed(negative, Value(s[..i], Ten))) != Signed(negative, Value(s[..i], Ten))
    ensures ReadDigits(s, negative) == Answer(false, if negative then INT_MIN else INT_MAX)
  {
    InRun(s, i);
  }

  method SafeParsePositiveInt(text: Text) returns (ok: bool, result: Int32)
    ensures Answer(ok, result as int) == ReadDigits(text, false)
  {
    var value: Int32 := 0;
    var vmax: Int32 := 0x7FFF_FFFF;
    var vmaxOverBase: Int32 := vmax / 10;
    var i := 0;
    while i < |text|
      invariant i <= |text| && AllDigits(text[..i], Ten) && value as int == Value(text[..i], Ten)
    {
      var digit := AsciiToInt(text[i]);
      if digit >= 10 {
        RunEndsAt(text, i);
        return false, value;
      }
      NextDigit(text, i);
      if value > vmaxOverBase {
        TooLarge(text, i + 1, false);
        return false, vmax;
      }
      value := value * 10;
      if value > vmax - digit {
        TooLarge(text, i + 1, false);
        return false, vmax;
      }
      value := value + digit;
      i := i + 1;
    }
    RunEndsAt(text, i);
    return true, value;
  }

  /** Division that truncates toward zero, and its remainder. */
  function TruncDiv(a: int, b: int): int
    requires b > 0
  {
    if a >= 0 then a / b else -((-a) / b)
  }

  function TruncRem(a: int, b: int): int
    requires b > 0
  {
    a - TruncDiv(a, b) * b
  }

  /** A tenth, rounded up whatever the sign. */
  function OverBase(v: Int32): (q: Int32)
    ensures 10 * (q as int) - 10 < v as int <= 10 * (q as int)
  {
    var q := TruncDiv(v as int, 10) as Int32;
    if TruncRem(v as int, 10) > 0 then q + 1 else q
  }

  method SafeParseNegativeInt(text: Text) returns (ok: bool, result: Int32)
    ensures Answer(ok, result as int) == ReadDigits(text, true)
  {
    var value: Int32 := 0;
    var vmin: Int32 := -0x8000_0000;
    var vminOverBase := OverBase(vmin);
    var i := 0;
    while i < |text|
      invariant i <= |text| && AllDigits(text[..i], Ten) && value as int == Signed(true, Value(text[..i], Ten))
    {
      var digit := AsciiToInt(text[i]);
      if digit >= 10 {
        RunEndsAt(text, i);
        return false, value;
      }
      NextDigit(text, i);
      if value < vminOverBase {
        TooLarge(text, i + 1, true);
        return false, vmin;
      }
      value := value * 10;
      if value < vmin + digit {
        TooLarge(text, i + 1, true);
        return false, vmin;
      }
      value := value - digit;
      i := i + 1;
    }
    RunEndsAt(text, i);
    return true, value;
  }

  // ---------------------------------------------------------------- the sign

  lemma SkipAt(s: Text, i: nat)
    requires i < |s| && IsSpace(s[i])
    ensures SkipSpaces(s[i..]) == SkipSpaces(s[i + 1..])
  {
    assert s[i..][1..] == s[i + 1..];
  }

  /** `safe_parse_sign`: skips white space at both ends and the sign; only the start is
      handed back, so white space at the end stays in the text. */
  method SafeParseSign(s: Text) returns (ok: bool, rest: Text, negative: bool)
    ensures var t := SkipSpaces(s);
            && (ok <==> !AllSpaces(AfterSign(t)))
            && (ok ==> negative == IsNegative(t) && rest == AfterSign(t))
  {
    var start, end := 0, |s|;
    assert s[0..] == s;
    while start < end && IsSpace(s[start])
      invariant start <= end && SkipSpaces(s[start..]) == SkipSpaces(s)
    {
      SkipAt(s, start);
      start := start + 1;
    }
    ghost var t := s[start..];
    assert SkipSpaces(t) == t;
    while start < end && IsSpace(s[end - 1])
      invariant start <= end <= |s| && AllSpaces(s[end..])
    {
      assert s[end - 1..] == [s[end - 1]] + s[end..];
      end := end - 1;
    }
    rest, negative := s, false;
    if start >= end { return false, rest, negative; }
    negative := s[start] == MINUS;
    if negative || s[start] == PLUS {
      start := start + 1;
      assert t[1..] == s[start..];
      if start >= end { return false, rest, negative; }
    }
    assert s[start..][end - 1 - start] == s[end - 1];
    ok, rest := true, s[start..];
  }

  lemma BlankReadsZero(s: Text, negative: bool)
    requires s != [] && AllSpaces(s)
    ensures ReadDigits(s, negative) == Answer(false, 0)
  {
    assert IsSpace(s[0]);
  }

  /** `safe_strto32` */
  method SafeStrto32(text: Text) returns (ok: bool, value: Int32)
    ensures Answer(ok, value as int) == Reading(text)
  {
    value := 0;
    var s := CString(text);
    var signed, rest, negative := SafeParseSign(s);
    ghost var t := SkipSpaces(s);
    if !signed {
      if AfterSign(t) != [] { BlankReadsZero(AfterSign(t), IsNegative(t)); }
      return false, value;
    }
    if !negative {
      ok, value := SafeParsePositiveInt(rest);
    } else {
      ok, value := SafeParseNegativeInt(rest);
    }
  }
}
