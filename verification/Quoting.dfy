/** Quoting arguments for CreateProcessW, against the rules by which a Microsoft C runtime
    program splits its command line again. */
module Quoting {
  import opened Basics

  /** A UTF-16 code unit. */
  newtype WChar = c: int | 0 <= c < 0x1_0000
  type Text = seq<WChar>

  const NUL: WChar := 0
  const TAB: WChar := 0x09
  const SPACE: WChar := 0x20
  const QUOTE: WChar := 0x22
  const SLASH: WChar := 0x5C

  /** What `char c = s[i]` keeps of a code unit. */
  function LowByte(c: WChar): WChar { if c < 256 then c else LowByte(c - 256) }

  lemma {:induction false} LowByteTruncates(c: WChar)
    ensures LowByte(c) as int == c as int % 256
  {
    if c >= 256 { LowByteTruncates(c - 256); }
  }

  const MAX_CMDLINE_LENGTH := 32768

  predicate Blank(c: WChar) { c == SPACE || c == TAB }

  function Slashes(n: nat): Text { if n == 0 then [] else [SLASH] + Slashes(n - 1) }

  // ---------------------------------------------------------------- the splitter: the specification

  datatype Piece = Piece(text: Text, rest: Text)

  function Before(prefix: Text, p: Piece): Piece { Piece(prefix + p.text, p.rest) }

  /** One argument.  `n` backslashes have been read and not yet interpreted: before a quote
      they halve, and an odd one makes the quote literal; anywhere else they stand for
      themselves.  Inside quotes a doubled quote is a literal one. */
  function ReadArgument(s: Text, quoted: bool, n: nat): (p: Piece)
    ensures |p.rest| <= |s|
    decreases |s|
  {
    if s == [] then Piece(Slashes(n), [])
    else if s[0] == SLASH then ReadArgument(s[1..], quoted, n + 1)
    else if s[0] == QUOTE then
      if n % 2 == 1 then Before(Slashes(n / 2) + [QUOTE], ReadArgument(s[1..], quoted, 0))
      else if quoted && |s| > 1 && s[1] == QUOTE then Before(Slashes(n / 2) + [QUOTE], ReadArgument(s[2..], quoted, 0))
      else Before(Slashes(n / 2), ReadArgument(s[1..], !quoted, 0))
    else if !quoted && Blank(s[0]) then Piece(Slashes(n), s)
    else Before(Slashes(n) + [s[0]], ReadArgument(s[1..], quoted, 0))
  }

  function SkipBlanks(s: Text): (r: Text)
    ensures |r| <= |s|
    ensures r != [] ==> !Blank(r[0])
  {
    if s != [] && Blank(s[0]) then SkipBlanks(s[1..]) else s
  }

  /** The arguments after the program name. */
  function Arguments(s: Text): seq<Text>
    decreases |s|
  {
    var t := SkipBlanks(s);
    if t == [] then []
    else
      ReadsSomething(t);
      var p := ReadArgument(t, false, 0);
      [p.text] + Arguments(p.rest)
  }

  lemma ReadsSomething(t: Text)
    requires t != [] && !Blank(t[0])
    ensures |ReadArgument(t, false, 0).rest| < |t|
  {
  }

  /** The program name: quotes only group, and backslashes mean nothing special. */
  function ReadProgram(s: Text, quoted: bool): Piece {
    if s == [] then Piece([], [])
    else if s[0] == QUOTE then ReadProgram(s[1..], !quoted)
    else if !quoted && Blank(s[0]) then Piece([], s)
    else Before([s[0]], ReadProgram(s[1..], quoted))
  }

  function SplitCommandLine(s: Text): seq<Text> {
    var p := ReadProgram(s, false);
    [p.text] + Arguments(p.rest)
  }

  // ---------------------------------------------------------------- the writer

  /** `char c = s[i]` keeps the low byte, so other characters can pass for a quote or a backslash. */
  predicate LooksLikeQuote(c: WChar) { LowByte(c) == QUOTE }

  predicate LooksLikeSlash(c: WChar) { LowByte(c) == SLASH }

  predicate Fake(c: WChar) { (LooksLikeQuote(c) && c != QUOTE) || (LooksLikeSlash(c) && c != SLASH) }

  function SlashRun(s: Text): (n: nat)
    ensures n <= |s|
  {
    if s != [] && s[0] == SLASH then 1 + SlashRun(s[1..]) else 0
  }

  predicate IsSpecial(c: WChar) { LooksLikeQuote(c) || LooksLikeSlash(c) }

  /** What a special character turns into: the text written, the characters it stands for,
      and whether a run of backslashes went to the end. */
  datatype Token = Token(out: Text, used: nat, stop: bool)

  function Special(s: Text): (t: Token)
    requires s != []
    ensures 0 < t.used <= |s|
  {
    if LooksLikeQuote(s[0]) then Token([SLASH, QUOTE], 1, false)
    else
      var run := 1 + SlashRun(s[1..]);
      if run == |s| then Token(Slashes(2 * run), run, true)
      else if s[run] == QUOTE then Token(Slashes(2 * run) + [SLASH, QUOTE], run + 1, false)
      else Token(Slashes(run), run, false)
  }

  /** What is written between the quotes. */
  function EscapedBody(s: Text): Text
    decreases |s|
  {
    if s == [] then []
    else if IsSpecial(s[0]) then
      var t := Special(s);
      t.out + if t.stop then [] else EscapedBody(s[t.used..])
    else [s[0]] + EscapedBody(s[1..])
  }

  predicate NeedsEscaping(s: Text) { SPACE in s || QUOTE in s }

  function Escaped(s: Text): Text {
    if s == [] then [QUOTE, QUOTE] else if !NeedsEscaping(s) then s else [QUOTE] + EscapedBody(s) + [QUOTE]
  }

  /** The first loop: is there a space or a quote? */
  method HasSpaceOrQuote(s: Text) returns (needsEscaping: bool)
    ensures needsEscaping == NeedsEscaping(s)
  {
    var k := 0;
    while k < |s|
      invariant k <= |s| && SPACE !in s[..k] && QUOTE !in s[..k]
    {
      if s[k] == SPACE || s[k] == QUOTE { return true; }
      k := k + 1;
    }
    assert s[..k] == s;
    needsEscaping := false;
  }

  /** Writes the quote at i, or the run of backslashes that starts there together with a
      quote that ends it. */
  method WriteSpecial(s: Text, i: nat) returns (out: Text, next: nat, stop: bool, ghost used: nat)
    requires i < |s| && IsSpecial(s[i])
    ensures i < next <= |s| && next == i + used
    ensures Token(out, used, stop) == Special(s[i..])
  {
    if LooksLikeQuote(s[i]) { return [SLASH, QUOTE], i + 1, false, 1; }
    var runLen := RunFrom(s, i);
    assert s[i..][1..] == s[i + 1..];
    var j := i + runLen;
    if j == |s| {
      out, next, stop, used := Slashes(2 * runLen), |s|, true, runLen;
    } else if s[j] == QUOTE {
      out, next, stop, used := Slashes(2 * runLen) + [SLASH, QUOTE], j + 1, false, runLen + 1;
    } else {
      out, next, stop, used := Slashes(runLen), j, false, runLen;
    }
  }

  method RunFrom(s: Text, i: nat) returns (runLen: nat)
    requires i < |s|
    ensures runLen == 1 + SlashRun(s[i + 1..])
  {
    runLen := 1;
    var j := i + 1;
    while j < |s| && s[j] == SLASH
      invariant i + 1 <= j <= |s| && runLen == j - i
      invariant runLen + SlashRun(s[j..]) == 1 + SlashRun(s[i + 1..])
    {
      assert s[j..][1..] == s[j + 1..];
      runLen, j := runLen + 1, j + 1;
    }
  }

  /** `WindowsEscapeArg`: copies the stretches between special characters and rewrites the
      special ones. */
  method WindowsEscapeArg(s: Text) returns (result: Text)
    ensures result == Escaped(s)
  {
    if s == [] { return [QUOTE, QUOTE]; }
    var needsEscaping := HasSpaceOrQuote(s);
    if !needsEscaping { return s; }
    result := EscapeLoop(s);
    result := [QUOTE] + result + [QUOTE];
  }

  method EscapeLoop(s: Text) returns (result: Text)
    ensures result == EscapedBody(s)
  {
    var start: int, i, stop := 0, 0, false;
    result := [];
    MidwayStart(s);
    while i < |s| && !stop
      invariant 0 <= i <= |s| && -1 <= start <= i && Midway(s, result, start, i, stop)
      decreases |s| - i
    {
      if IsSpecial(s[i]) {
        result, i, stop := CopyAndWrite(s, result, start, i);
        start := -1;
      } else {
        start, i := PassOver(s, result, start, i);
      }
    }
    MidwayDone(s, result, start, i, stop);
    if start != -1 {
      result := result + s[start..];
    }
  }

  /** A special character: what was seen since the last one is copied, then it is rewritten. */
  method CopyAndWrite(s: Text, written: Text, start: int, i: nat) returns (r: Text, next: nat, stop: bool)
    requires -1 <= start <= i < |s| && IsSpecial(s[i]) && Midway(s, written, start, i, false)
    ensures i < next <= |s| && Midway(s, r, -1, next, stop)
  {
    r := written;
    if start >= 0 {
      r := r + s[start..i];
    }
    MidwayCopied(s, written, start, i, r);
    var out;
    ghost var used;
    out, next, stop, used := WriteSpecial(s, i);
    MidwaySpecial(s, r, i, out, used, next, stop);
    r := r + out;
  }

  /** Any other character: a stretch starts there unless one is open. */
  method PassOver(s: Text, ghost written: Text, start: int, i: nat) returns (start': int, next: nat)
    requires -1 <= start <= i < |s| && !IsSpecial(s[i]) && Midway(s, written, start, i, false)
    ensures next == i + 1 && -1 <= start' <= next && Midway(s, written, start', next, false)
  {
    start', next := start, i + 1;
    if start < 0 { start' := i; }
    MidwayPlain(s, written, start, i, start', next);
  }

  /** What has been written, what has been seen since, and what is left make the whole. */
  ghost predicate Midway(s: Text, written: Text, start: int, i: int, stop: bool)
    requires -1 <= start <= i <= |s| && 0 <= i
  {
    (stop ==> start == -1) && (written + Stretch(s, start, i)) + Left(s, i, stop) == EscapedBody(s)
  }

  lemma MidwayStart(s: Text)
    ensures Midway(s, [], 0, 0, false)
  {
    assert s[0..] == s;
    assert [] + s[0..0] + EscapedBody(s) == EscapedBody(s);
  }

  lemma MidwayCopied(s: Text, written: Text, start: int, i: nat, r: Text)
    requires -1 <= start <= i < |s| && Midway(s, written, start, i, false)
    requires r == if start >= 0 then written + s[start..i] else written
    ensures Midway(s, r, -1, i, false)
  {
    Nothing(written);
    Nothing(r);
  }

  lemma MidwaySpecial(s: Text, written: Text, i: nat, out: Text, used: nat, next: nat, stop: bool)
    requires i < next <= |s| && next == i + used && IsSpecial(s[i]) && Token(out, used, stop) == Special(s[i..])
    requires Midway(s, written, -1, i, false)
    ensures Midway(s, written + out, -1, next, stop)
  {
    LeftSpecial(s, i, out, used, next, stop);
    Nothing(written);
    Nothing(written + out);
    Regroup(written, out, Left(s, next, stop));
  }

  lemma MidwayPlain(s: Text, written: Text, start: int, i: nat, start': int, next: nat)
    requires -1 <= start <= i < |s| && !IsSpecial(s[i]) && Midway(s, written, start, i, false)
    requires next == i + 1 && start' == if start < 0 then i else start
    ensures Midway(s, written, start', next, false)
  {
    LeftPlain(s, i);
    StretchGrows(s, start, i);
    Regroup(written + Stretch(s, start, i), [s[i]], Left(s, next, false));
    Regroup(written, Stretch(s, start, i), [s[i]]);
  }

  lemma MidwayDone(s: Text, written: Text, start: int, i: nat, stop: bool)
    requires -1 <= start <= i <= |s| && (i == |s| || stop) && Midway(s, written, start, i, stop)
    ensures EscapedBody(s) == if start == -1 then written else written + s[start..]
  {
    assert Left(s, i, stop) == [];
    Nothing(written);
    Nothing(written + Stretch(s, start, i));
  }

  /** What is still to be written. */
  ghost function Left(s: Text, i: nat, stop: bool): Text
    requires i <= |s|
  {
    if stop then [] else EscapedBody(s[i..])
  }

  lemma LeftSpecial(s: Text, i: nat, out: Text, used: nat, next: nat, stop: bool)
    requires i < next <= |s| && next == i + used && IsSpecial(s[i]) && Token(out, used, stop) == Special(s[i..])
    ensures Left(s, i, false) == out + Left(s, next, stop)
  {
    DropDrop(s, i, used, next);
    SpecialBody(s[i..], Token(out, used, stop));
  }

  lemma DropDrop(s: Text, i: nat, used: nat, next: nat)
    requires i <= next <= |s| && next == i + used
    ensures s[i..][used..] == s[next..]
  {
  }

  lemma LeftPlain(s: Text, i: nat)
    requires i < |s| && !IsSpecial(s[i])
    ensures Left(s, i, false) == [s[i]] + Left(s, i + 1, false)
  {
    PlainBody(s, i);
  }

  lemma StretchGrows(s: Text, start: int, i: nat)
    requires -1 <= start <= i < |s|
    ensures Stretch(s, if start < 0 then i else start, i + 1) == Stretch(s, start, i) + [s[i]]
  {
  }

  lemma SpecialBody(s: Text, t: Token)
    requires s != [] && IsSpecial(s[0]) && t == Special(s)
    ensures EscapedBody(s) == t.out + Left(s, t.used, t.stop)
  {
  }

  lemma SlashBody(t: Text, run: nat)
    requires t != [] && !LooksLikeQuote(t[0]) && LooksLikeSlash(t[0]) && run == 1 + SlashRun(t[1..])
    ensures run <= |t|
    ensures EscapedBody(t) ==
            if run == |t| then Slashes(2 * run)
            else if t[run] == QUOTE then Slashes(2 * run) + [SLASH, QUOTE] + EscapedBody(t[run + 1..])
            else Slashes(run) + EscapedBody(t[run..])
  {
    assert Slashes(2 * run) + [] == Slashes(2 * run);
  }

  lemma PlainBody(s: Text, i: nat)
    requires i < |s| && !IsSpecial(s[i])
    ensures EscapedBody(s[i..]) == [s[i]] + EscapedBody(s[i + 1..])
  {
    assert s[i..][1..] == s[i + 1..];
  }

  /** The characters seen since the last special one and not yet copied. */
  ghost function Stretch(s: Text, start: int, i: int): Text
    requires -1 <= start <= i <= |s| && 0 <= i
  {
    if start < 0 then [] else s[start..i]
  }
}
