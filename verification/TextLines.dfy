/** Python's `str.split(sep)`, `sep.join(...)`, `str.strip()` and `"%d" % n` on sequences of characters. */
module TextLines {
  import opened Basics

  /** `s.split(sep)`: always at least one piece, and no piece contains the separator. */
  function Split(s: string, sep: char): (r: seq<string>)
    ensures |r| >= 1
    ensures forall i :: 0 <= i < |r| ==> sep !in r[i]
  {
    if s == "" then [""]
    else if s[0] == sep then [""] + Split(s[1..], sep)
    else
      var rest := Split(s[1..], sep);
      [[s[0]] + rest[0]] + rest[1..]
  }

  /** `sep.join(parts)` */
  function Join(parts: seq<string>, sep: char): string {
    if parts == [] then ""
    else if |parts| == 1 then parts[0]
    else parts[0] + [sep] + Join(parts[1..], sep)
  }

  lemma {:induction false} SplitFirst(a: string, sep: char, b: string)
    requires sep !in a
    ensures Split(a + [sep] + b, sep) == [a] + Split(b, sep)
  {
    var s := a + [sep] + b;
    if a == "" {
      assert s[1..] == b;
    } else {
      assert s[1..] == a[1..] + [sep] + b;
      SplitFirst(a[1..], sep, b);
      assert [a[0]] + a[1..] == a;
    }
  }

  lemma {:induction false} SplitWhole(a: string, sep: char)
    requires sep !in a
    ensures Split(a, sep) == [a]
  {
    if a != "" {
      SplitWhole(a[1..], sep);
      assert [a[0]] + a[1..] == a;
    }
  }

  /** Splitting undoes joining when no part contains the separator. */
  lemma {:induction false} SplitJoin(parts: seq<string>, sep: char)
    requires parts != [] && forall i :: 0 <= i < |parts| ==> sep !in parts[i]
    ensures Split(Join(parts, sep), sep) == parts
  {
    if |parts| == 1 {
      SplitWhole(parts[0], sep);
    } else {
      SplitJoin(parts[1..], sep);
      SplitFirst(parts[0], sep, Join(parts[1..], sep));
    }
  }

  /** Joining undoes splitting, always. */
  lemma {:induction false} JoinSplit(s: string, sep: char)
    ensures Join(Split(s, sep), sep) == s
  {
    if s != "" {
      JoinSplit(s[1..], sep);
      var rest := Split(s[1..], sep);
      if s[0] == sep {
        JoinCons("", rest, sep);
      } else {
        JoinFirst(s[0], rest, sep);
      }
    }
  }

  lemma JoinCons(first: string, rest: seq<string>, sep: char)
    requires rest != []
    ensures Join([first] + rest, sep) == first + [sep] + Join(rest, sep)
  {
    assert ([first] + rest)[1..] == rest;
  }

  lemma JoinFirst(c: char, parts: seq<string>, sep: char)
    requires parts != []
    ensures Join([[c] + parts[0]] + parts[1..], sep) == [c] + Join(parts, sep)
  {
    if |parts| > 1 {
      JoinCons([c] + parts[0], parts[1..], sep);
      assert [c] + parts[0] + [sep] + Join(parts[1..], sep) == [c] + (parts[0] + [sep] + Join(parts[1..], sep));
    }
  }

  /** What the pieces of a prefix are: whole pieces, then the beginning of the next one. */
  lemma {:induction false} SplitPrefix(parts: seq<string>, sep: char, p: string) returns (k: nat, piece: string)
    requires parts != [] && forall i :: 0 <= i < |parts| ==> sep !in parts[i]
    requires p <= Join(parts, sep)
    ensures k < |parts| && piece <= parts[k] && Split(p, sep) == parts[..k] + [piece]
    ensures k == |parts| - 1 && piece == parts[k] ==> p == Join(parts, sep)
  {
    var a := parts[0];
    if |parts| == 1 || |p| <= |a| {
      k, piece := 0, p;
      assert p == Join(parts, sep)[..|p|] && a == Join(parts, sep)[..|a|];
      PrefixFree(p, a, sep);
      SplitWhole(p, sep);
      assert parts[..0] + [p] == [p];
    } else {
      var rest := p[|a| + 1..];
      PrefixTail(p, a, sep, Join(parts[1..], sep));
      k, piece := SplitPrefix(parts[1..], sep, rest);
      SplitFirst(a, sep, rest);
      assert [a] + parts[1..][..k] == parts[..k + 1];
      assert [a] + (parts[1..][..k] + [piece]) == [a] + parts[1..][..k] + [piece];
      k := k + 1;
    }
  }

  lemma PrefixFree(p: string, a: string, sep: char)
    requires p <= a && sep !in a
    ensures sep !in p
  {
  }

  lemma PrefixTail(p: string, a: string, sep: char, b: string)
    requires p <= a + [sep] + b && |p| > |a|
    ensures p == a + [sep] + p[|a| + 1..] && p[|a| + 1..] <= b
  {
    var all := a + [sep] + b;
    assert p == all[..|p|] && a == all[..|a|];
  }

  // ---------------------------------------------------------------- whitespace

  predicate IsSpace(c: char) {
    || c == ' ' || ('\t' <= c <= '\r') || ('\U{1c}' <= c <= '\U{1f}') || c == '\U{85}' || c == '\U{a0}'
    || c == '\U{1680}' || ('\U{2000}' <= c <= '\U{200a}') || c == '\U{2028}' || c == '\U{2029}'
    || c == '\U{202f}' || c == '\U{205f}' || c == '\U{3000}'
  }

  predicate NoSpace(s: string) { forall i :: 0 <= i < |s| ==> !IsSpace(s[i]) }

  lemma NoSpaceMeaning(s: string)
    requires NoSpace(s)
    ensures ' ' !in s && '\n' !in s
  {
  }

  lemma StripIdle(s: string)
    requires s != "" && !IsSpace(s[0]) && !IsSpace(s[|s| - 1])
    ensures Strip(s, IsSpace) == s
  {
  }

  lemma StripRightEnds(s: string)
    ensures var r := StripRight(s, IsSpace); r <= s && (r != "" ==> !IsSpace(r[|r| - 1]))
  {
    if s != "" && IsSpace(s[|s| - 1]) { StripRightEnds(s[..|s| - 1]); }
  }

  lemma StripLeftStarts(s: string, c: char)
    ensures var r := StripLeft(s, IsSpace); (r != "" ==> !IsSpace(r[0])) && (c !in s ==> c !in r)
  {
    if s != "" && IsSpace(s[0]) { StripLeftStarts(s[1..], c); }
  }

  /** A stripped text neither begins nor ends with white space, and holds nothing new. */
  lemma StripMeaning(s: string, c: char)
    ensures var r := Strip(s, IsSpace);
            (r != "" ==> !IsSpace(r[0]) && !IsSpace(r[|r| - 1])) && (c !in s ==> c !in r)
  {
    StripLeftStarts(s, c);
    StripRightEnds(StripLeft(s, IsSpace));
  }

  lemma {:induction false} SplitPieces(s: string, sep: char, c: char)
    requires c !in s
    ensures forall i :: 0 <= i < |Split(s, sep)| ==> c !in Split(s, sep)[i]
  {
    if s != "" { SplitPieces(s[1..], sep, c); }
  }

  lemma SplitFour(a: string, b: string, c: string, d: string, sep: char)
    requires sep !in a && sep !in b && sep !in c && sep !in d
    ensures Split(a + [sep] + (b + [sep] + (c + [sep] + d)), sep) == [a, b, c, d]
  {
    SplitFirst(a, sep, b + [sep] + (c + [sep] + d));
    SplitFirst(b, sep, c + [sep] + d);
    SplitFirst(c, sep, d);
    SplitWhole(d, sep);
  }

  // ---------------------------------------------------------------- decimal numbers

  function Digit(d: nat): char
    requires d < 10
  {
    "0123456789"[d]
  }

  /** `"%d" % n` */
  function Decimal(n: nat): (s: string)
    ensures s != ""
  {
    if n < 10 then [Digit(n)] else Decimal(n / 10) + [Digit(n % 10)]
  }

  /** The number a text of digits stands for in positional notation. */
  function Reading(s: string): int {
    if s == "" then 0 else 10 * Reading(s[..|s| - 1]) + (s[|s| - 1] as int - 48)
  }

  lemma DigitReads(d: nat)
    requires d < 10
    ensures Digit(d) as int == 48 + d
  {
  }

  /** The text is the number's, and has no needless zero in front. */
  lemma {:induction false} DecimalReads(n: nat)
    ensures Reading(Decimal(n)) == n && (n > 0 ==> Decimal(n)[0] != '0')
  {
    var s := Decimal(n);
    DigitReads(n % 10);
    if n >= 10 {
      DecimalReads(n / 10);
      assert s[..|s| - 1] == Decimal(n / 10);
    } else {
      assert s[..0] == "";
    }
  }

  lemma DecimalInjective(m: nat, n: nat)
    requires Decimal(m) == Decimal(n)
    ensures m == n
  {
    DecimalReads(m);
    DecimalReads(n);
  }

  lemma {:induction false} DecimalNoSpace(n: nat)
    ensures NoSpace(Decimal(n))
  {
    if n >= 10 { DecimalNoSpace(n / 10); }
  }
}
