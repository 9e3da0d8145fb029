/** The layout of an `ar` archive: what the writer appends for one member, and what the
    reader makes of it. */
module ArArchive {

  import opened Basics
  import opened Digits

  type Bytes = seq<Byte>

  const NEWLINE: Byte := 0x0A
  const SPACE: Byte := 0x20
  const PLUS: Byte := 0x2B
  const MINUS: Byte := 0x2D
  const SLASH: Byte := 0x2F
  const UNDERSCORE: Byte := 0x5F
  const GRAVE: Byte := 0x60

  const HEADER_SIZE := 60
  const NAME_WIDTH := 16

  // ---------------------------------------------------------------- reading from a file object

  function Take(s: Bytes, n: nat): Bytes { if n <= |s| then s[..n] else s }

  function Drop(s: Bytes, n: nat): Bytes { if n <= |s| then s[n..] else [] }

  lemma TakeDrop(a: Bytes, u: Bytes)
    ensures Take(a + u, |a|) == a && Drop(a + u, |a|) == u
  {
  }

  // ---------------------------------------------------------------- stripping and padding

  predicate IsSpace(c: Byte) { c == SPACE || 0x09 <= c <= 0x0D }

  /** What `str.strip()` removes besides. */
  predicate IsTextSpace(c: Byte) { IsSpace(c) || 0x1C <= c <= 0x1F }

  function Spaces(n: nat): Bytes { if n == 0 then [] else Spaces(n - 1) + [SPACE] }

  lemma {:induction false} SpacesLength(n: nat)
    ensures |Spaces(n)| == n
  {
    if n > 0 { SpacesLength(n - 1); }
  }

  /** `text.ljust(width)` */
  function Column(text: Bytes, width: nat): Bytes {
    if |text| < width then text + Spaces(width - |text|) else text
  }

  lemma ColumnLength(text: Bytes, width: nat)
    ensures |Column(text, width)| == if |text| < width then width else |text|
  {
    if |text| < width { SpacesLength(width - |text|); }
  }

  lemma {:induction false} StripSpaces(t: Bytes, n: nat, space: Byte -> bool)
    requires space(SPACE) && t != [] && !space(t[|t| - 1])
    ensures StripRight(t + Spaces(n), space) == t
  {
    if n == 0 {
      Nothing(t);
    } else {
      StripSpaces(t, n - 1, space);
      Regroup(t, Spaces(n - 1), [SPACE]);
      StripOne(t + Spaces(n - 1), space);
    }
  }

  lemma StripOne(s: Bytes, space: Byte -> bool)
    requires space(SPACE)
    ensures StripRight(s + [SPACE], space) == StripRight(s, space)
  {
    assert (s + [SPACE])[..|s|] == s;
  }

  lemma {:induction false} StripLeftOf(t: Bytes, u: Bytes, space: Byte -> bool)
    requires t != [] && !space(t[|t| - 1])
    ensures StripLeft(t + u, space) == StripLeft(t, space) + u
    ensures StripLeft(t, space) != [] && StripLeft(t, space)[|StripLeft(t, space)| - 1] == t[|t| - 1]
    ensures StripLeft(t, space) == t <==> !space(t[0])
  {
    if space(t[0]) {
      assert (t + u)[1..] == t[1..] + u;
      StripLeftOf(t[1..], u, space);
    }
  }

  /** A column gives its text back, without blanks in front. */
  lemma StripColumn(t: Bytes, width: nat, space: Byte -> bool)
    requires space(SPACE) && t != [] && !space(t[|t| - 1])
    ensures Strip(Column(t, width), space) == StripLeft(t, space)
    ensures StripLeft(t, space) == t <==> !space(t[0])
    ensures StripLeft(t, space) != [] && StripLeft(t, space)[|StripLeft(t, space)| - 1] == t[|t| - 1]
  {
    var n := if |t| < width then width - |t| else 0;
    Nothing(t);
    assert Column(t, width) == t + Spaces(n);
    StripLeftOf(t, Spaces(n), space);
    StripSpaces(StripLeft(t, space), n, space);
  }

  // ---------------------------------------------------------------- numbers

  /** Digits with single underscores between them. */
  predicate Grouped(s: Bytes, b: Base) {
    && s != [] && IsDigit(s[0], b) && IsDigit(s[|s| - 1], b)
    && forall i :: 0 <= i < |s| ==> GroupedAt(s, i, b)
  }

  predicate GroupedAt(s: Bytes, i: nat, b: Base)
    requires i < |s|
  {
    IsDigit(s[i], b) || (s[i] == UNDERSCORE && i > 0 && IsDigit(s[i - 1], b))
  }

  function Ungrouped(s: Bytes): Bytes {
    if s == [] then [] else (if s[0] == UNDERSCORE then [] else [s[0]]) + Ungrouped(s[1..])
  }

  /** Octal numbers may carry a prefix, and an underscore after it. */
  function AfterPrefix(s: Bytes, b: Base): Bytes {
    if b == Eight && |s| >= 2 && s[0] == ZERO && (s[1] == 0x6F || s[1] == 0x4F) then
      if |s| >= 3 && s[2] == UNDERSCORE then s[3..] else s[2..]
    else s
  }

  /** `int(text.strip(), base)`, as Python 3 reads it. */
  function ReadNumber(column: Bytes, b: Base): Option<int> {
    var t := Strip(column, IsSpace);
    var negative := t != [] && t[0] == MINUS;
    var d := AfterPrefix(if negative || (t != [] && t[0] == PLUS) then t[1..] else t, b);
    if !Grouped(d, b) then None
    else Some(if negative then 0 - Value(Ungrouped(d), b) else Value(Ungrouped(d), b))
  }

  lemma {:induction false} DigitsAreUngrouped(s: Bytes, b: Base)
    requires AllDigits(s, b)
    ensures Ungrouped(s) == s
  {
    if s != [] {
      assert IsDigit(s[0], b);
      DigitsAreUngrouped(s[1..], b);
      assert [s[0]] + s[1..] == s;
    }
  }

  /** A text of digits reads as its value. */
  lemma PlainDigits(t: Bytes, b: Base)
    requires t != [] && AllDigits(t, b)
    ensures Grouped(t, b) && AfterPrefix(t, b) == t && Ungrouped(t) == t
    ensures t[0] != MINUS && t[0] != PLUS
  {
    DigitsAreUngrouped(t, b);
    assert IsDigit(t[0], b) && IsDigit(t[|t| - 1], b);
    assert |t| >= 2 ==> IsDigit(t[1], b);
  }

  /** The columns after the name: their width, their base, and whether a zero leads. */
  datatype Col = Col(width: nat, base: Base, zero: bool)

  function Magnitude(n: int): nat { if n < 0 then 0 - n else n }

  function Sign(n: int): Bytes { if n < 0 then [MINUS] else [] }

  function Digits0(n: nat, c: Col): Bytes { (if c.zero then [ZERO] else []) + DigitsOf(n, c.base) }

  /** `str(n)`, or `oct(n)` without its letter. */
  function NumberText(n: int, c: Col): Bytes { Sign(n) + Digits0(Magnitude(n), c) }

  lemma DigitsText(n: nat, c: Col)
    ensures var t := Digits0(n, c); t != [] && AllDigits(t, c.base) && Value(t, c.base) == n
    ensures |Digits0(n, c)| > 2 ==> n > 0
  {
    DigitsValue(n, c.base);
    LeadingZero(DigitsOf(n, c.base), c.base);
    Nothing(DigitsOf(n, c.base));
  }

  lemma StrippedDigits(column: Bytes, t: Bytes, b: Base)
    requires Strip(column, IsSpace) == t && t != [] && AllDigits(t, b)
    ensures ReadNumber(column, b) == Some(Value(t, b))
  {
    PlainDigits(t, b);
  }

  lemma StrippedNegative(column: Bytes, t: Bytes, b: Base)
    requires Strip(column, IsSpace) == [MINUS] + t && t != [] && AllDigits(t, b)
    ensures ReadNumber(column, b) == Some(0 - Value(t, b))
  {
    assert ([MINUS] + t)[1..] == t;
    PlainDigits(t, b);
  }

  lemma DigitIsNoSpace(c: Byte, b: Base)
    requires IsDigit(c, b)
    ensures !IsSpace(c)
  {
  }

  lemma ReadPositive(t: Bytes, width: nat, b: Base)
    requires t != [] && AllDigits(t, b)
    ensures ReadNumber(Column(t, width), b) == Some(Value(t, b))
  {
    DigitIsNoSpace(t[|t| - 1], b);
    DigitIsNoSpace(t[0], b);
    StripColumn(t, width, IsSpace);
    StrippedDigits(Column(t, width), t, b);
  }

  lemma ReadNegative(t: Bytes, width: nat, b: Base)
    requires t != [] && AllDigits(t, b)
    ensures ReadNumber(Column([MINUS] + t, width), b) == Some(0 - Value(t, b))
  {
    DigitIsNoSpace(t[|t| - 1], b);
    StripColumn([MINUS] + t, width, IsSpace);
    StrippedNegative(Column([MINUS] + t, width), t, b);
  }

  predicate NumberFits(n: int, c: Col) { |NumberText(n, c)| <= c.width }

  /** What fits is bounded by powers of the base: a minus sign takes one place, and so does a
      leading zero. */
  lemma NumberFitsIff(n: int, c: Col)
    requires c.width >= 3
    ensures var places := if c.zero then c.width - 1 else c.width;
            NumberFits(n, c) <==> 0 - Power(c.base, places - 1) < n < Power(c.base, places)
  {
    var places := if c.zero then c.width - 1 else c.width;
    DigitsLengthIff(Magnitude(n), c.base, if n < 0 then places - 1 else places);
  }

  lemma NumberBack(n: int, c: Col, t: Bytes)
    requires t == NumberText(n, c)
    ensures ReadNumber(Column(t, c.width), c.base) == Some(n)
  {
    var d := Digits0(Magnitude(n), c);
    DigitsText(Magnitude(n), c);
    if n < 0 {
      ReadNegative(d, c.width, c.base);
    } else {
      Nothing(d);
      ReadPositive(d, c.width, c.base);
    }
  }

  /** A number cut off by its column reads as another. */
  lemma CutNumber(n: int, c: Col, k: Bytes)
    requires c.width >= 2 && !NumberFits(n, c) && k == NumberText(n, c)[..c.width]
    ensures ReadNumber(k, c.base) != Some(n)
  {
    if n < 0 { CutNegative(n, c, k); } else { CutPositive(n, c, k); }
  }

  lemma CutPositive(n: nat, c: Col, k: Bytes)
    requires c.width >= 2 && !NumberFits(n, c) && k == NumberText(n, c)[..c.width]
    ensures ReadNumber(k, c.base) != Some(n)
  {
    var t := Digits0(n, c);
    DigitsText(n, c);
    Nothing(t);
    PrefixSmaller(t, c.width, c.base);
    ReadPositive(k, c.width, c.base);
  }

  lemma CutAfter(t: Bytes, w: nat)
    requires 1 <= w <= |t|
    ensures ([MINUS] + t)[..w] == [MINUS] + t[..w - 1]
  {
  }

  lemma CutNegative(n: int, c: Col, k: Bytes)
    requires n < 0 && c.width >= 2 && !NumberFits(n, c) && k == NumberText(n, c)[..c.width]
    ensures ReadNumber(k, c.base) != Some(n)
  {
    var t := Digits0(Magnitude(n), c);
    DigitsText(Magnitude(n), c);
    CutAfter(t, c.width);
    CutMinus(t, c.width, c.base);
  }

  lemma CutMinus(t: Bytes, w: nat, b: Base)
    requires t != [] && AllDigits(t, b) && 2 <= w <= |t| && Value(t, b) > 0
    ensures ReadNumber([MINUS] + t[..w - 1], b) != Some(0 - Value(t, b))
  {
    PrefixSmaller(t, w - 1, b);
    ReadNegative(t[..w - 1], w, b);
  }

  /** One number is read back from its column if and only if it fits there. */
  lemma NumberColumn(n: int, c: Col, u: Bytes)
    requires c.width >= 2
    ensures var s := Column(NumberText(n, c), c.width) + u;
            && (ReadNumber(Take(s, c.width), c.base) == Some(n) <==> NumberFits(n, c))
            && (NumberFits(n, c) ==> Drop(s, c.width) == u)
  {
    var t := NumberText(n, c);
    ColumnLength(t, c.width);
    if |t| <= c.width {
      TakeDrop(Column(t, c.width), u);
      NumberBack(n, c, t);
    } else {
      assert Take(t + u, c.width) == t[..c.width];
      CutNumber(n, c, t[..c.width]);
    }
  }

  // ---------------------------------------------------------------- a row of numbers

  function WriteNumbers(ns: seq<int>, cols: seq<Col>): Bytes
    requires |ns| == |cols|
  {
    if ns == [] then [] else Column(NumberText(ns[0], cols[0]), cols[0].width) + WriteNumbers(ns[1..], cols[1..])
  }

  datatype Row = Row(ns: seq<int>, rest: Bytes)

  function ReadNumbers(s: Bytes, cols: seq<Col>): (r: Option<Row>)
    ensures r.Some? ==> |r.value.ns| == |cols|
    decreases |cols|
  {
    if cols == [] then Some(Row([], s))
    else
      var n := ReadNumber(Take(s, cols[0].width), cols[0].base);
      var more := ReadNumbers(Drop(s, cols[0].width), cols[1..]);
      if n.None? || more.None? then None else Some(Row([n.value] + more.value.ns, more.value.rest))
  }

  predicate NumbersFit(ns: seq<int>, cols: seq<Col>)
    requires |ns| == |cols|
  {
    forall i :: 0 <= i < |ns| ==> NumberFits(ns[i], cols[i])
  }

  lemma {:induction false} NumbersBack(ns: seq<int>, cols: seq<Col>, u: Bytes)
    requires |ns| == |cols| && forall i :: 0 <= i < |cols| ==> cols[i].width >= 2
    ensures NumbersFit(ns, cols) ==> ReadNumbers(WriteNumbers(ns, cols) + u, cols) == Some(Row(ns, u))
    ensures var r := ReadNumbers(WriteNumbers(ns, cols) + u, cols); r.Some? && r.value.ns == ns ==> NumbersFit(ns, cols)
    decreases |ns|
  {
    if ns == [] {
      Nothing(u);
    } else {
      var first, more := Column(NumberText(ns[0], cols[0]), cols[0].width), WriteNumbers(ns[1..], cols[1..]);
      Regroup(first, more, u);
      NumberColumn(ns[0], cols[0], more + u);
      NumbersBack(ns[1..], cols[1..], u);
      var all := first + (more + u);
      if NumbersFit(ns, cols) {
        FitsSplit(ns, cols);
        RowForward(all, cols, ns, u);
      }
      var r := ReadNumbers(all, cols);
      if r.Some? && r.value.ns == ns {
        RowBackward(all, cols);
        FitsTail(ns, cols);
      }
    }
  }

  lemma RowForward(s: Bytes, cols: seq<Col>, ns: seq<int>, u: Bytes)
    requires cols != [] && ns != [] && ReadNumber(Take(s, cols[0].width), cols[0].base) == Some(ns[0])
    requires ReadNumbers(Drop(s, cols[0].width), cols[1..]) == Some(Row(ns[1..], u))
    ensures ReadNumbers(s, cols) == Some(Row(ns, u))
  {
    assert [ns[0]] + ns[1..] == ns;
  }

  lemma RowBackward(s: Bytes, cols: seq<Col>)
    requires cols != [] && ReadNumbers(s, cols).Some?
    ensures var ns := ReadNumbers(s, cols).value.ns;
            && ReadNumber(Take(s, cols[0].width), cols[0].base) == Some(ns[0])
            && ReadNumbers(Drop(s, cols[0].width), cols[1..]).Some?
            && ReadNumbers(Drop(s, cols[0].width), cols[1..]).value.ns == ns[1..]
  {
    var more := ReadNumbers(Drop(s, cols[0].width), cols[1..]).value.ns;
    var n := ReadNumber(Take(s, cols[0].width), cols[0].base).value;
    assert ([n] + more)[1..] == more;
  }

  lemma FitsSplit(ns: seq<int>, cols: seq<Col>)
    requires |ns| == |cols| && ns != [] && NumbersFit(ns, cols)
    ensures NumberFits(ns[0], cols[0]) && NumbersFit(ns[1..], cols[1..])
  {
  }

  lemma FitsTail(ns: seq<int>, cols: seq<Col>)
    requires |ns| == |cols| && ns != [] && NumberFits(ns[0], cols[0]) && NumbersFit(ns[1..], cols[1..])
    ensures NumbersFit(ns, cols)
  {
    forall i | 0 <= i < |ns| ensures NumberFits(ns[i], cols[i]) {
      if i > 0 { assert ns[i] == ns[1..][i - 1] && cols[i] == cols[1..][i - 1]; }
    }
  }
}
