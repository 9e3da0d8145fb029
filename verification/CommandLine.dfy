/** The command line the launcher assembles, and what the started program makes of it. */
module CommandLine {
  import opened Basics
  import opened Quoting

  /** Words with a space before each. */
  function Spaced(words: seq<Text>): Text {
    if words == [] then [] else [SPACE] + words[0] + Spaced(words[1..])
  }

  /** What `CreateCommandLine` makes of the words it is given. */
  function CommandText(executable: Text, words: seq<Text>): Text {
    [QUOTE] + executable + [QUOTE] + Spaced(words)
  }

  function Tail(args: seq<Text>): Text {
    if args == [] then [] else [SPACE] + Escaped(args[0]) + Tail(args[1..])
  }

  function Assembled(executable: Text, args: seq<Text>): Text {
    [QUOTE] + executable + [QUOTE] + Tail(args)
  }

  /** An argument the writer and the splitter agree on.  The check is the writer's own
      guard: a tab alone does not make it quote, and inside quotes no other character may
      pass for a quote or a backslash. */
  predicate Safe(a: Text) {
    a == [] || if NeedsEscaping(a) then NoFake(a) else TAB !in a
  }

  // ---------------------------------------------------------------- reading back one argument

  predicate Ends(rest: Text) { rest == [] || Blank(rest[0]) }

  lemma {:induction false} SlashesAdd(m: nat, n: nat)
    ensures Slashes(m + n) == Slashes(m) + Slashes(n)
    ensures |Slashes(m)| == m
  {
    if m > 0 {
      SlashesAdd(m - 1, n);
      assert Slashes(m + n) == [SLASH] + Slashes(m - 1 + n);
    }
  }

  lemma {:induction false} ReadSlashes(k: nat, t: Text, quoted: bool, n: nat)
    ensures ReadArgument(Slashes(k) + t, quoted, n) == ReadArgument(t, quoted, n + k)
  {
    if k == 0 {
      assert Slashes(0) + t == t;
    } else {
      assert (Slashes(k) + t)[1..] == Slashes(k - 1) + t;
      ReadSlashes(k - 1, t, quoted, n + 1);
    }
  }

  lemma {:induction false} SlashRunIs(s: Text, n: nat)
    requires n == SlashRun(s)
    ensures s[..n] == Slashes(n) && (n < |s| ==> s[n] != SLASH)
  {
    if n > 0 {
      SlashRunIs(s[1..], n - 1);
      assert s[..n] == [s[0]] + s[1..][..n - 1];
    }
  }

  lemma ReadOne(c: WChar, t: Text, n: nat)
    requires c != QUOTE && c != SLASH
    ensures ReadArgument([c] + t, true, n) == Before(Slashes(n) + [c], ReadArgument(t, true, 0))
  {
    assert ([c] + t)[1..] == t;
  }

  /** The text read from inside quotes, up to the closing quote, is `text`. */
  ghost predicate ReadsAs(body: Text, rest: Text, text: Text) {
    ReadArgument(body + [QUOTE] + rest, true, 0) == Piece(text, rest)
  }

  lemma ReadEscapedQuote(n: nat, body: Text, rest: Text, text: Text)
    requires ReadsAs(body, rest, text)
    ensures ReadsAs(Slashes(2 * n) + [SLASH, QUOTE] + body, rest, Slashes(n) + [QUOTE] + text)
  {
    var t := body + [QUOTE] + rest;
    var u := [SLASH, QUOTE] + t;
    assert Slashes(2 * n) + [SLASH, QUOTE] + body + [QUOTE] + rest == Slashes(2 * n) + u;
    ReadSlashes(2 * n, u, true, 0);
    assert u[1..] == [QUOTE] + t && ([QUOTE] + t)[1..] == t;
  }

  lemma ReadSlashesAndOne(n: nat, c: WChar, body: Text, rest: Text, text: Text)
    requires ReadsAs(body, rest, text) && c != QUOTE && c != SLASH
    ensures ReadsAs(Slashes(n) + ([c] + body), rest, Slashes(n) + [c] + text)
  {
    var t := body + [QUOTE] + rest;
    assert Slashes(n) + ([c] + body) + [QUOTE] + rest == Slashes(n) + ([c] + t);
    ReadSlashes(n, [c] + t, true, 0);
    ReadOne(c, t, n);
  }

  lemma ReadClosing(n: nat, rest: Text)
    requires Ends(rest)
    ensures ReadsAs(Slashes(2 * n), rest, Slashes(n))
  {
    var u := [QUOTE] + rest;
    assert Slashes(2 * n) + [QUOTE] + rest == Slashes(2 * n) + u;
    ReadSlashes(2 * n, u, true, 0);
    assert u[1..] == rest;
    assert Slashes(n) + [] == Slashes(n);
  }

  predicate NoFake(s: Text) { forall i :: 0 <= i < |s| ==> !Fake(s[i]) }

  lemma ReadQuoteStep(body: Text, more: Text, rest: Text, s: Text)
    requires s != [] && s[0] == QUOTE && body == [SLASH, QUOTE] + more && ReadsAs(more, rest, s[1..])
    ensures ReadsAs(body, rest, s)
  {
    ReadEscapedQuote(0, more, rest, s[1..]);
    assert Slashes(0) + [SLASH, QUOTE] + more == body;
    assert Slashes(0) + [QUOTE] + s[1..] == s;
  }

  lemma ReadPlainStep(body: Text, more: Text, rest: Text, s: Text)
    requires s != [] && s[0] != QUOTE && s[0] != SLASH && body == [s[0]] + more && ReadsAs(more, rest, s[1..])
    ensures ReadsAs(body, rest, s)
  {
    ReadSlashesAndOne(0, s[0], more, rest, s[1..]);
    assert Slashes(0) + ([s[0]] + more) == body;
    assert Slashes(0) + [s[0]] + s[1..] == s;
  }

  /** The body between the quotes, followed by the closing quote, reads back as it was. */
  lemma {:induction false} ReadBody(s: Text, rest: Text)
    requires Ends(rest) && NoFake(s)
    ensures ReadsAs(EscapedBody(s), rest, s)
    decreases |s|, 1
  {
    if s == [] {
      ReadClosing(0, rest);
    } else {
      assert !Fake(s[0]);
      if s[0] == SLASH {
        ReadRun(s, rest);
      } else {
        ReadBody(s[1..], rest);
        if s[0] == QUOTE {
          ReadQuoteStep(EscapedBody(s), EscapedBody(s[1..]), rest, s);
        } else {
          ReadPlainStep(EscapedBody(s), EscapedBody(s[1..]), rest, s);
        }
      }
    }
  }

  /** The shape of a text that starts with a run of backslashes. */
  lemma RunShape(s: Text, run: nat)
    requires s != [] && s[0] == SLASH && run == 1 + SlashRun(s[1..])
    ensures run <= |s| && s[..run] == Slashes(run) && (run < |s| ==> s[run] != SLASH)
  {
    SlashRunIs(s[1..], run - 1);
    assert s[..run] == [SLASH] + s[1..][..run - 1];
    assert run < |s| ==> s[run] == s[1..][run - 1];
  }

  lemma {:induction false} ReadRun(s: Text, rest: Text)
    requires Ends(rest) && NoFake(s) && s != [] && s[0] == SLASH
    ensures ReadsAs(EscapedBody(s), rest, s)
    decreases |s|, 0
  {
    var run := 1 + SlashRun(s[1..]);
    RunShape(s, run);
    if run == |s| {
      RunToEnd(s, run, rest);
    } else {
      ReadBody(s[run + 1..], rest);
      RunBefore(s, run, rest);
    }
  }

  lemma RunToEnd(s: Text, run: nat, rest: Text)
    requires Ends(rest) && s != [] && s[0] == SLASH && run == 1 + SlashRun(s[1..]) == |s| && s[..run] == Slashes(run)
    ensures ReadsAs(EscapedBody(s), rest, s)
  {
    SlashBody(s, run);
    ReadClosing(run, rest);
    assert s == s[..run];
  }

  /** A run of backslashes before a quote or another character. */
  lemma RunBefore(s: Text, run: nat, rest: Text)
    requires NoFake(s) && s != [] && s[0] == SLASH && run == 1 + SlashRun(s[1..]) < |s|
    requires s[..run] == Slashes(run) && s[run] != SLASH
    requires ReadsAs(EscapedBody(s[run + 1..]), rest, s[run + 1..])
    ensures ReadsAs(EscapedBody(s), rest, s)
  {
    var c, t := s[run], s[run + 1..];
    CutAt(s, run);
    SlashBody(s, run);
    assert !Fake(c);
    if c == QUOTE {
      ReadEscapedQuote(run, EscapedBody(t), rest, t);
    } else {
      PlainBody(s, run);
      ReadSlashesAndOne(run, c, EscapedBody(t), rest, t);
    }
  }

  lemma CutAt(s: Text, k: nat)
    requires k < |s|
    ensures s == s[..k] + [s[k]] + s[k + 1..]
  {
  }

  lemma HeadTail(s: Text)
    requires s != []
    ensures [s[0]] + s[1..] == s
  {
  }

  lemma OneMoreSlash(n: nat)
    ensures Slashes(n + 1) == Slashes(n) + [SLASH]
  {
    SlashesAdd(n, 1);
    assert Slashes(1) == [SLASH];
  }

  /** Text without blanks or quotes is read literally outside quotes. */
  lemma {:induction false} ReadPlain(s: Text, rest: Text, n: nat)
    requires Ends(rest) && forall i :: 0 <= i < |s| ==> !Blank(s[i]) && s[i] != QUOTE
    ensures ReadArgument(s + rest, false, n) == Piece(Slashes(n) + s, rest)
    decreases |s|
  {
    if s == [] {
      Nothing(rest);
      Nothing(Slashes(n));
    } else {
      var c, t := s[0], s[1..];
      HeadTail(s);
      Regroup([c], t, rest);
      Regroup(Slashes(n), [c], t);
      ReadPlain(t, rest, if c == SLASH then n + 1 else 0);
      OneMoreSlash(n);
      ReadPlainOne(c, t + rest, n, t, rest);
    }
  }

  lemma ReadPlainOne(c: WChar, u: Text, n: nat, t: Text, rest: Text)
    requires !Blank(c) && c != QUOTE
    requires ReadArgument(u, false, if c == SLASH then n + 1 else 0) ==
             Piece((if c == SLASH then Slashes(n) + [SLASH] else []) + t, rest)
    ensures ReadArgument([c] + u, false, n) == Piece(Slashes(n) + [c] + t, rest)
  {
    assert ([c] + u)[1..] == u;
    Nothing(t);
  }

  lemma OpenQuote(inner: Text, p: Piece)
    requires ReadArgument(inner, true, 0) == p
    ensures ReadArgument([QUOTE] + inner, false, 0) == p
  {
    assert ([QUOTE] + inner)[1..] == inner;
    assert Slashes(0) + p.text == p.text;
  }

  lemma Regroup4(a: Text, b: Text, c: Text, d: Text)
    ensures a + b + c + d == a + (b + c + d)
  {
  }

  lemma ReadQuoted(a: Text, rest: Text)
    requires NoFake(a) && Ends(rest)
    ensures ReadArgument([QUOTE] + EscapedBody(a) + [QUOTE] + rest, false, 0) == Piece(a, rest)
  {
    var inner := EscapedBody(a) + [QUOTE] + rest;
    ReadBody(a, rest);
    OpenQuote(inner, Piece(a, rest));
    Regroup4([QUOTE], EscapedBody(a), [QUOTE], rest);
  }

  /** One safe argument in front of the end or a blank reads back as it was. */
  lemma ReadSafe(a: Text, rest: Text)
    requires Safe(a) && Ends(rest)
    ensures ReadArgument(Escaped(a) + rest, false, 0) == Piece(a, rest)
    ensures Escaped(a) != [] && !Blank(Escaped(a)[0])
  {
    if a != [] && !NeedsEscaping(a) {
      ReadPlain(a, rest, 0);
      assert Slashes(0) + a == a;
    } else {
      ReadQuoted(a, rest);
      if a == [] {
        assert [QUOTE] + EscapedBody(a) + [QUOTE] == [QUOTE, QUOTE];
      }
    }
  }

  lemma TailEnds(args: seq<Text>)
    ensures Ends(Tail(args))
  {
  }

  lemma NextArgument(a: Text, rest: Text)
    requires Safe(a) && Ends(rest)
    ensures Arguments([SPACE] + Escaped(a) + rest) == [a] + Arguments(rest)
  {
    var t := Escaped(a) + rest;
    ReadSafe(a, rest);
    ArgumentsStep(t, Piece(a, rest));
    Regroup([SPACE], Escaped(a), rest);
    SkipSpace(t);
  }

  lemma SkipSpace(t: Text)
    ensures Arguments([SPACE] + t) == Arguments(t)
  {
    assert ([SPACE] + t)[1..] == t;
  }

  lemma ArgumentsStep(t: Text, p: Piece)
    requires t != [] && !Blank(t[0]) && ReadArgument(t, false, 0) == p
    ensures Arguments(t) == [p.text] + Arguments(p.rest)
  {
    assert SkipBlanks(t) == t;
  }

  /** Safe arguments come back exactly, in order. */
  lemma {:induction false} ArgumentsOfTail(args: seq<Text>)
    requires forall i :: 0 <= i < |args| ==> Safe(args[i])
    ensures Arguments(Tail(args)) == args
  {
    if args != [] {
      ArgumentsOfTail(args[1..]);
      TailEnds(args[1..]);
      NextArgument(args[0], Tail(args[1..]));
    }
  }

  // ---------------------------------------------------------------- the program name

  lemma {:induction false} ReadQuotedProgram(exe: Text, rest: Text)
    requires Ends(rest) && QUOTE !in exe
    ensures ReadProgram(exe + [QUOTE] + rest, true) == Piece(exe, rest)
  {
    var s := exe + [QUOTE] + rest;
    if exe == [] {
      assert s[1..] == rest;
    } else {
      assert s[1..] == exe[1..] + [QUOTE] + rest;
      ReadQuotedProgram(exe[1..], rest);
      assert [exe[0]] + exe[1..] == exe;
    }
  }

  lemma {:induction false} ProgramHasNoQuote(s: Text, quoted: bool)
    ensures QUOTE !in ReadProgram(s, quoted).text
  {
    if s != [] {
      ProgramHasNoQuote(s[1..], quoted);
      ProgramHasNoQuote(s[1..], !quoted);
    }
  }

  lemma SplitAssembled(executable: Text, args: seq<Text>)
    requires QUOTE !in executable
    ensures SplitCommandLine(Assembled(executable, args)) == [executable] + Arguments(Tail(args))
  {
    TailEnds(args);
    var s := Assembled(executable, args);
    assert s[1..] == executable + [QUOTE] + Tail(args);
    ReadQuotedProgram(executable, Tail(args));
  }

  // ---------------------------------------------------------------- counting characters

  function Count(s: Text, p: WChar -> bool): nat {
    if s == [] then 0 else (if p(s[0]) then 1 else 0) + Count(s[1..], p)
  }

  function Total(args: seq<Text>, p: WChar -> bool): nat {
    if args == [] then 0 else Count(args[0], p) + Total(args[1..], p)
  }

  /** Characters that the quoting rules neither add nor drop. */
  predicate Ordinary(p: WChar -> bool) { !p(QUOTE) && !p(SLASH) }

  lemma {:induction false} CountConcat(a: Text, b: Text, p: WChar -> bool)
    ensures Count(a + b, p) == Count(a, p) + Count(b, p)
  {
    if a == [] {
      assert a + b == b;
    } else {
      assert (a + b)[1..] == a[1..] + b;
      CountConcat(a[1..], b, p);
    }
  }

  lemma {:induction false} CountZero(s: Text, p: WChar -> bool)
    ensures Count(s, p) == 0 <==> forall i :: 0 <= i < |s| ==> !p(s[i])
  {
    if s != [] {
      CountZero(s[1..], p);
      assert forall i :: 1 <= i < |s| ==> s[i] == s[1..][i - 1];
    }
  }

  lemma {:induction false} CountSlashes(n: nat, p: WChar -> bool)
    requires Ordinary(p)
    ensures Count(Slashes(n), p) == 0
  {
    if n > 0 {
      CountSlashes(n - 1, p);
      assert Slashes(n)[1..] == Slashes(n - 1);
    }
  }

  lemma CountSlashesAnd(n: nat, t: Text, p: WChar -> bool)
    requires Ordinary(p)
    ensures Count(Slashes(n) + t, p) == Count(t, p)
  {
    CountConcat(Slashes(n), t, p);
    CountSlashes(n, p);
  }

  lemma CountBefore(n: nat, c: WChar, r: Piece, p: WChar -> bool)
    requires Ordinary(p)
    ensures var q := Before(Slashes(n) + [c], r); Count(q.text, p) == (if p(c) then 1 else 0) + Count(r.text, p)
  {
    assert Slashes(n) + [c] + r.text == Slashes(n) + ([c] + r.text);
    assert ([c] + r.text)[1..] == r.text;
    CountSlashesAnd(n, [c] + r.text, p);
  }

  lemma {:induction false} ReadCounts(s: Text, quoted: bool, n: nat, p: WChar -> bool)
    requires Ordinary(p)
    ensures var r := ReadArgument(s, quoted, n); Count(r.text, p) + Count(r.rest, p) == Count(s, p)
    decreases |s|
  {
    if s == [] {
      CountSlashes(n, p);
    } else if s[0] == SLASH {
      ReadCounts(s[1..], quoted, n + 1, p);
    } else if s[0] == QUOTE {
      if n % 2 == 1 {
        ReadCounts(s[1..], quoted, 0, p);
        CountBefore(n / 2, QUOTE, ReadArgument(s[1..], quoted, 0), p);
      } else if quoted && |s| > 1 && s[1] == QUOTE {
        ReadCounts(s[2..], quoted, 0, p);
        CountBefore(n / 2, QUOTE, ReadArgument(s[2..], quoted, 0), p);
        assert s[1..][1..] == s[2..];
      } else {
        ReadCounts(s[1..], !quoted, 0, p);
        CountSlashesAnd(n / 2, ReadArgument(s[1..], !quoted, 0).text, p);
      }
    } else if !quoted && Blank(s[0]) {
      CountSlashes(n, p);
    } else {
      ReadCounts(s[1..], quoted, 0, p);
      CountBefore(n, s[0], ReadArgument(s[1..], quoted, 0), p);
    }
  }

  lemma {:induction false} SkipCounts(s: Text, p: WChar -> bool)
    ensures Count(SkipBlanks(s), p) <= Count(s, p)
  {
    if s != [] && Blank(s[0]) { SkipCounts(s[1..], p); }
  }

  /** Splitting never makes up a character. */
  lemma {:induction false} ArgumentsCount(s: Text, p: WChar -> bool)
    requires Ordinary(p)
    ensures Total(Arguments(s), p) <= Count(s, p)
    decreases |s|
  {
    var t := SkipBlanks(s);
    SkipCounts(s, p);
    if t != [] {
      ReadsSomething(t);
      ReadCounts(t, false, 0, p);
      ArgumentsCount(ReadArgument(t, false, 0).rest, p);
    }
  }

  lemma {:induction false} ProgramCounts(s: Text, quoted: bool, p: WChar -> bool)
    requires Ordinary(p)
    ensures var r := ReadProgram(s, quoted); Count(r.text, p) + Count(r.rest, p) == Count(s, p)
  {
    if s != [] {
      ProgramCounts(s[1..], quoted, p);
      ProgramCounts(s[1..], !quoted, p);
      var r := ReadProgram(s[1..], quoted);
      assert ([s[0]] + r.text)[1..] == r.text;
    }
  }

  // ---------------------------------------------------------------- what the writer keeps

  lemma CountEscapedQuote(n: nat, body: Text, p: WChar -> bool)
    requires Ordinary(p)
    ensures Count(Slashes(n) + [SLASH, QUOTE] + body, p) == Count(body, p)
  {
    CountConcat(Slashes(n) + [SLASH, QUOTE], body, p);
    CountSlashesAnd(n, [SLASH, QUOTE], p);
    CountZero([SLASH, QUOTE], p);
  }

  lemma {:induction false} BodyCounts(s: Text, p: WChar -> bool)
    requires Ordinary(p)
    ensures Count(EscapedBody(s), p) <= Count(s, p)
    decreases |s|, 1
  {
    if s == [] {
    } else if LooksLikeQuote(s[0]) {
      BodyCounts(s[1..], p);
      CountEscapedQuote(0, EscapedBody(s[1..]), p);
      assert Slashes(0) + [SLASH, QUOTE] + EscapedBody(s[1..]) == EscapedBody(s);
    } else if LooksLikeSlash(s[0]) {
      RunCounts(s, p);
    } else {
      BodyCounts(s[1..], p);
      assert ([s[0]] + EscapedBody(s[1..]))[1..] == EscapedBody(s[1..]);
    }
  }

  lemma {:induction false} RunCounts(s: Text, p: WChar -> bool)
    requires Ordinary(p) && s != [] && !LooksLikeQuote(s[0]) && LooksLikeSlash(s[0])
    ensures Count(EscapedBody(s), p) <= Count(s, p)
    decreases |s|, 0
  {
    var run := 1 + SlashRun(s[1..]);
    SlashBody(s, run);
    if run == |s| {
      CountSlashes(2 * run, p);
    } else if s[run] == QUOTE {
      BodyCounts(s[run + 1..], p);
      CountSplit(s, run + 1, p);
      CountEscapedQuote(2 * run, EscapedBody(s[run + 1..]), p);
    } else {
      BodyCounts(s[run..], p);
      CountSplit(s, run, p);
      CountSlashesAnd(run, EscapedBody(s[run..]), p);
    }
  }

  /** No character passes for a quote or a backslash once it has been through the writer. */
  lemma {:induction false} BodyHasNoFake(s: Text)
    ensures Count(EscapedBody(s), Fake) == 0
    decreases |s|
  {
    if s == [] {
    } else if LooksLikeQuote(s[0]) {
      BodyHasNoFake(s[1..]);
      CountEscapedQuote(0, EscapedBody(s[1..]), Fake);
      assert Slashes(0) + [SLASH, QUOTE] + EscapedBody(s[1..]) == EscapedBody(s);
    } else if LooksLikeSlash(s[0]) {
      var run := 1 + SlashRun(s[1..]);
      SlashBody(s, run);
      if run == |s| {
        CountSlashes(2 * run, Fake);
      } else if s[run] == QUOTE {
        BodyHasNoFake(s[run + 1..]);
        CountEscapedQuote(2 * run, EscapedBody(s[run + 1..]), Fake);
      } else {
        BodyHasNoFake(s[run..]);
        CountSlashesAnd(run, EscapedBody(s[run..]), Fake);
      }
    } else {
      BodyHasNoFake(s[1..]);
      assert ([s[0]] + EscapedBody(s[1..]))[1..] == EscapedBody(s[1..]);
    }
  }

  lemma CountSplit(s: Text, k: nat, p: WChar -> bool)
    requires k <= |s|
    ensures Count(s, p) == Count(s[..k], p) + Count(s[k..], p)
  {
    assert s == s[..k] + s[k..];
    CountConcat(s[..k], s[k..], p);
  }

  predicate Quoted(a: Text) { a != [] && NeedsEscaping(a) }

  lemma CountInQuotes(body: Text, p: WChar -> bool)
    requires Ordinary(p)
    ensures Count([QUOTE] + body + [QUOTE], p) == Count(body, p)
  {
    CountConcat([QUOTE] + body, [QUOTE], p);
    CountConcat([QUOTE], body, p);
    CountZero([QUOTE], p);
  }

  lemma EscapedCounts(a: Text, p: WChar -> bool)
    requires Ordinary(p)
    ensures Count(Escaped(a), p) <= Count(a, p)
  {
    if a == [] {
      CountZero([QUOTE, QUOTE], p);
    } else if NeedsEscaping(a) {
      BodyCounts(a, p);
      CountInQuotes(EscapedBody(a), p);
    }
  }

  lemma EscapedHasNoFake(a: Text)
    requires Quoted(a)
    ensures Count(Escaped(a), Fake) == 0
  {
    BodyHasNoFake(a);
    CountInQuotes(EscapedBody(a), Fake);
  }

  lemma TailCount(args: seq<Text>, p: WChar -> bool)
    requires args != [] && !p(SPACE)
    ensures Count(Tail(args), p) == Count(Escaped(args[0]), p) + Count(Tail(args[1..]), p)
  {
    CountConcat([SPACE] + Escaped(args[0]), Tail(args[1..]), p);
    CountConcat([SPACE], Escaped(args[0]), p);
    CountZero([SPACE], p);
  }

  lemma {:induction false} TailCounts(args: seq<Text>, p: WChar -> bool)
    requires Ordinary(p) && !p(SPACE)
    ensures Count(Tail(args), p) <= Total(args, p)
  {
    if args != [] {
      TailCount(args, p);
      EscapedCounts(args[0], p);
      TailCounts(args[1..], p);
    }
  }

  /** Fakes in a quoted argument are lost when it is written, and nothing brings them back. */
  lemma {:induction false} FakesAreLost(args: seq<Text>, i: nat)
    requires i < |args| && Quoted(args[i]) && Count(args[i], Fake) > 0
    ensures Count(Tail(args), Fake) < Total(args, Fake)
  {
    TailCount(args, Fake);
    if i == 0 {
      EscapedHasNoFake(args[0]);
      TailCounts(args[1..], Fake);
    } else {
      EscapedCounts(args[0], Fake);
      FakesAreLost(args[1..], i - 1);
    }
  }

  // ---------------------------------------------------------------- tabs outside quotes

  predicate IsTab(c: WChar) { c == TAB }

  predicate NoSpaceOrQuote(s: Text) { forall i :: 0 <= i < |s| ==> s[i] != SPACE && s[i] != QUOTE }

  /** The length of the text before the first tab. */
  function ToTab(s: Text): (k: nat)
    ensures k <= |s| && TAB !in s[..k]
    ensures k < |s| ==> s[k] == TAB
  {
    if s == [] || s[0] == TAB then 0
    else
      var k := ToTab(s[1..]);
      assert s[..k + 1] == [s[0]] + s[1..][..k];
      k + 1
  }

  lemma SkipOne(s: Text)
    requires s != [] && Blank(s[0])
    ensures Arguments(s) == Arguments(s[1..])
  {
  }

  /** Tabs in text that is not quoted separate arguments and are gone. */
  lemma {:induction false} PlainTabs(s: Text, rest: Text)
    requires NoSpaceOrQuote(s) && Ends(rest)
    ensures Total(Arguments(s + rest), IsTab) == Total(Arguments(rest), IsTab)
    decreases |s|
  {
    if s == [] {
      assert s + rest == rest;
    } else if s[0] == TAB {
      assert (s + rest)[1..] == s[1..] + rest;
      SkipOne(s + rest);
      PlainTabs(s[1..], rest);
    } else {
      var k := ToTab(s);
      FirstPlainPiece(s, rest, k);
      CountZero(s[..k], IsTab);
      PlainTabs(s[k..], rest);
      assert ([s[..k]] + Arguments(s[k..] + rest))[1..] == Arguments(s[k..] + rest);
    }
  }

  lemma FirstPlainPiece(s: Text, rest: Text, k: nat)
    requires NoSpaceOrQuote(s) && Ends(rest) && s != [] && s[0] != TAB && k == ToTab(s)
    ensures k > 0 && Arguments(s + rest) == [s[..k]] + Arguments(s[k..] + rest)
  {
    var piece, more := s[..k], s[k..] + rest;
    CutBefore(s, k, rest);
    forall i | 0 <= i < |piece| ensures !Blank(piece[i]) && piece[i] != QUOTE {
      assert piece[i] == s[i] && piece[i] in s[..k];
    }
    PlainArgument(piece, more);
  }

  lemma CutBefore(s: Text, k: nat, rest: Text)
    requires k <= |s|
    ensures s[..k] + (s[k..] + rest) == s + rest
  {
  }

  /** A piece without blanks or quotes in front of a blank is one argument. */
  lemma PlainArgument(piece: Text, more: Text)
    requires piece != [] && Ends(more) && forall i :: 0 <= i < |piece| ==> !Blank(piece[i]) && piece[i] != QUOTE
    ensures Arguments(piece + more) == [piece] + Arguments(more)
  {
    ReadPlain(piece, more, 0);
    assert Slashes(0) + piece == piece;
    ArgumentsStep(piece + more, Piece(piece, more));
  }

  function QuotedTabs(args: seq<Text>): nat {
    if args == [] then 0 else (if Quoted(args[0]) then Count(args[0], IsTab) else 0) + QuotedTabs(args[1..])
  }

  /** The tabs that reach the program are those of quoted arguments. */
  lemma {:induction false} TabsThatSurvive(args: seq<Text>)
    requires QuotedNoFake(args)
    ensures Total(Arguments(Tail(args)), IsTab) == QuotedTabs(args)
  {
    if args != [] {
      var a, rest := args[0], Tail(args[1..]);
      TabsThatSurvive(args[1..]);
      TailEnds(args[1..]);
      if a == [] || Quoted(a) {
        SafeTabs(a, rest);
      } else {
        PlainArgumentTabs(a, rest);
      }
    }
  }

  lemma SafeTabs(a: Text, rest: Text)
    requires Safe(a) && Ends(rest)
    ensures Total(Arguments([SPACE] + Escaped(a) + rest), IsTab) == Count(a, IsTab) + Total(Arguments(rest), IsTab)
  {
    NextArgument(a, rest);
    assert ([a] + Arguments(rest))[1..] == Arguments(rest);
  }

  lemma PlainArgumentTabs(a: Text, rest: Text)
    requires a != [] && !NeedsEscaping(a) && Ends(rest)
    ensures Total(Arguments([SPACE] + Escaped(a) + rest), IsTab) == Total(Arguments(rest), IsTab)
  {
    Regroup([SPACE], a, rest);
    var t := [SPACE] + (a + rest);
    assert t[1..] == a + rest;
    SkipOne(t);
    PlainTabs(a, rest);
  }

  lemma {:induction false} LostTabs(args: seq<Text>, i: nat)
    requires i < |args| && !Quoted(args[i]) && Count(args[i], IsTab) > 0
    ensures QuotedTabs(args) < Total(args, IsTab)
  {
    if i > 0 {
      LostTabs(args[1..], i - 1);
    } else {
      QuotedTabsBound(args[1..]);
    }
  }

  lemma {:induction false} QuotedTabsBound(args: seq<Text>)
    ensures QuotedTabs(args) <= Total(args, IsTab)
  {
    if args != [] { QuotedTabsBound(args[1..]); }
  }

  lemma ComesBackCount(args: seq<Text>, p: WChar -> bool)
    requires Arguments(Tail(args)) == args && Ordinary(p)
    ensures Total(args, p) <= Count(Tail(args), p)
  {
    ArgumentsCount(Tail(args), p);
  }

  lemma QuotedComesBack(args: seq<Text>, j: nat)
    requires Total(args, Fake) <= Count(Tail(args), Fake) && j < |args| && Quoted(args[j])
    ensures NoFake(args[j])
  {
    if Count(args[j], Fake) > 0 { FakesAreLost(args, j); }
    CountZero(args[j], Fake);
  }

  ghost predicate QuotedNoFake(args: seq<Text>) {
    forall j :: 0 <= j < |args| && Quoted(args[j]) ==> NoFake(args[j])
  }

  lemma FakesComeBack(args: seq<Text>)
    requires Total(args, Fake) <= Count(Tail(args), Fake)
    ensures QuotedNoFake(args)
  {
    forall j | 0 <= j < |args| && Quoted(args[j]) ensures NoFake(args[j]) {
      QuotedComesBack(args, j);
    }
  }

  lemma TabsComeBack(args: seq<Text>)
    requires Arguments(Tail(args)) == args && QuotedNoFake(args)
    ensures Total(args, IsTab) == QuotedTabs(args)
  {
    TabsThatSurvive(args);
  }

  lemma UnquotedComesBack(args: seq<Text>, i: nat)
    requires Total(args, IsTab) == QuotedTabs(args) && i < |args| && !Quoted(args[i])
    ensures TAB !in args[i]
  {
    if Count(args[i], IsTab) > 0 { LostTabs(args, i); }
    CountZero(args[i], IsTab);
  }

  /** If the arguments come back, each of them was safe. */
  lemma OnlySafeComesBack(args: seq<Text>)
    requires Arguments(Tail(args)) == args
    ensures forall i :: 0 <= i < |args| ==> Safe(args[i])
  {
    ComesBackCount(args, Fake);
    FakesComeBack(args);
    TabsComeBack(args);
    forall i | 0 <= i < |args| ensures Safe(args[i]) {
      if !Quoted(args[i]) { UnquotedComesBack(args, i); }
    }
  }

  // ---------------------------------------------------------------- the buffer handed to CreateProcess

  /** The text a C string holds: up to the first NUL. */
  function UpToNul(s: Text): Text {
    if s == [] || s[0] == NUL then [] else [s[0]] + UpToNul(s[1..])
  }

  predicate IsNul(c: WChar) { c == NUL }

  lemma {:induction false} UpToNulCounts(s: Text)
    ensures Count(UpToNul(s), IsNul) == 0
    ensures Count(s, IsNul) == 0 ==> UpToNul(s) == s
  {
    if s != [] && s[0] != NUL {
      UpToNulCounts(s[1..]);
      assert UpToNul(s)[1..] == UpToNul(s[1..]);
    }
  }

  lemma {:induction false} TotalZero(args: seq<Text>, p: WChar -> bool, i: nat)
    requires i < |args| && Total(args, p) == 0
    ensures Count(args[i], p) == 0
  {
    if i > 0 { TotalZero(args[1..], p, i - 1); }
  }

  lemma {:induction false} TotalAllZero(args: seq<Text>, p: WChar -> bool)
    requires forall i :: 0 <= i < |args| ==> Count(args[i], p) == 0
    ensures Total(args, p) == 0
  {
    if args != [] { TotalAllZero(args[1..], p); }
  }

  /** An executable or argument list that can be passed on at all. */
  predicate Passable(executable: Text, args: seq<Text>) {
    && QUOTE !in executable && NUL !in executable
    && forall i :: 0 <= i < |args| ==> Safe(args[i]) && NUL !in args[i]
  }

  lemma NulMeaning(s: Text)
    ensures Count(s, IsNul) == 0 <==> NUL !in s
  {
    CountZero(s, IsNul);
  }

  lemma AssembledHasNoNul(executable: Text, args: seq<Text>)
    requires NUL !in executable && forall i :: 0 <= i < |args| ==> NUL !in args[i]
    ensures UpToNul(Assembled(executable, args)) == Assembled(executable, args)
  {
    NulMeaning(executable);
    forall i | 0 <= i < |args| ensures Count(args[i], IsNul) == 0 { NulMeaning(args[i]); }
    TotalAllZero(args, IsNul);
    TailCounts(args, IsNul);
    CountConcat([QUOTE] + executable + [QUOTE], Tail(args), IsNul);
    CountConcat([QUOTE] + executable, [QUOTE], IsNul);
    CountConcat([QUOTE], executable, IsNul);
    CountZero([QUOTE], IsNul);
    UpToNulCounts(Assembled(executable, args));
  }

  lemma SplitHasNoNul(s: Text, parts: seq<Text>, i: nat)
    requires parts == SplitCommandLine(UpToNul(s)) && i < |parts|
    ensures NUL !in parts[i]
  {
    var t := UpToNul(s);
    UpToNulCounts(s);
    ProgramCounts(t, false, IsNul);
    var p := ReadProgram(t, false);
    ArgumentsCount(p.rest, IsNul);
    NulMeaning(parts[i]);
    if i > 0 {
      assert parts[i] == Arguments(p.rest)[i - 1];
      TotalZero(Arguments(p.rest), IsNul, i - 1);
    }
  }

  /** Quoting round trip: the started program sees exactly the executable and the arguments,
      if and only if the executable has no quote, no argument relies on a tab being quoted,
      no quoted argument holds a character whose low byte is that of a quote or backslash,
      and nothing contains NUL. */
  lemma RoundTripIff(executable: Text, args: seq<Text>)
    ensures SplitCommandLine(UpToNul(Assembled(executable, args))) == [executable] + args <==>
            Passable(executable, args)
  {
    if Passable(executable, args) {
      AssembledHasNoNul(executable, args);
      SplitAssembled(executable, args);
      ArgumentsOfTail(args);
    } else if SplitCommandLine(UpToNul(Assembled(executable, args))) == [executable] + args {
      ComesBackOnlyIf(executable, args);
    }
  }

  lemma ComesBackOnlyIf(executable: Text, args: seq<Text>)
    requires SplitCommandLine(UpToNul(Assembled(executable, args))) == [executable] + args
    ensures Passable(executable, args)
  {
    var parts := [executable] + args;
    SplitHasNoNul(Assembled(executable, args), parts, 0);
    forall i | 0 <= i < |args| ensures NUL !in args[i] {
      SplitHasNoNul(Assembled(executable, args), parts, i + 1);
      assert parts[i + 1] == args[i];
    }
    AssembledHasNoNul(executable, args);
    ProgramHasNoQuote(Assembled(executable, args), false);
    assert parts[0] == executable;
    SplitAssembled(executable, args);
    assert args == parts[1..];
    OnlySafeComesBack(args);
  }

  lemma {:induction false} TailIsSpaced(args: seq<Text>, words: seq<Text>)
    requires |words| == |args| && forall i :: 0 <= i < |args| ==> words[i] == Escaped(args[i])
    ensures Spaced(words) == Tail(args)
  {
    if args != [] { TailIsSpaced(args[1..], words[1..]); }
  }

  /** The first half of `CreateCommandLine`. */
  method JoinArguments(executable: Text, words: seq<Text>) returns (cmdline: Text)
    ensures cmdline == CommandText(executable, words)
  {
    cmdline := [QUOTE] + executable + [QUOTE];
    var i := 0;
    assert words[0..] == words;
    while i < |words|
      invariant i <= |words|
      invariant CommandText(executable, words) == cmdline + Spaced(words[i..])
    {
      assert words[i..][1..] == words[i + 1..];
      Regroup(cmdline, [SPACE] + words[i], Spaced(words[i + 1..]));
      cmdline := cmdline + ([SPACE] + words[i]);
      i := i + 1;
    }
    Nothing(cmdline);
  }

  /** `wcsncpy` into the fixed buffer: the text up to its first NUL, then NULs. */
  method CopyText(cmdline: Text, buffer: array<WChar>)
    requires |cmdline| < buffer.Length
    modifies buffer
    ensures UpToNul(buffer[..]) == UpToNul(cmdline)
  {
    var n := 0;
    while n < |cmdline| && cmdline[n] != NUL
      invariant n <= |cmdline| && buffer[..n] == cmdline[..n] && NUL !in cmdline[..n]
    {
      buffer[n] := cmdline[n];
      n := n + 1;
    }
    forall j | n <= j < buffer.Length { buffer[j] := NUL; }
    assert buffer[..] == cmdline[..n] + buffer[n..];
    assert cmdline == cmdline[..n] + cmdline[n..];
    UpToNulAfter(cmdline[..n], buffer[n..]);
    UpToNulAfter(cmdline[..n], cmdline[n..]);
  }

  lemma {:induction false} UpToNulAfter(a: Text, b: Text)
    requires NUL !in a && (b == [] || b[0] == NUL)
    ensures UpToNul(a + b) == a
  {
    if a == [] {
      assert a + b == b;
    } else {
      assert (a + b)[1..] == a[1..] + b;
      UpToNulAfter(a[1..], b);
      assert [a[0]] + a[1..] == a;
    }
  }

  /** `CreateCommandLine`: joins the executable and the words and copies them into the fixed
      buffer; a command line that does not fit ends the launcher. */
  method CreateCommandLine(executable: Text, words: seq<Text>, buffer: array<WChar>) returns (died: bool)
    requires buffer.Length == MAX_CMDLINE_LENGTH
    modifies buffer
    ensures died <==> |CommandText(executable, words)| >= MAX_CMDLINE_LENGTH
    ensures !died ==> UpToNul(buffer[..]) == UpToNul(CommandText(executable, words))
  {
    var cmdline := JoinArguments(executable, words);
    if |cmdline| >= MAX_CMDLINE_LENGTH { return true; }
    CopyText(cmdline, buffer);
    died := false;
  }

  method EscapeAll(args: seq<Text>) returns (words: seq<Text>)
    ensures |words| == |args| && Spaced(words) == Tail(args)
  {
    words := [];
    var i := 0;
    while i < |args|
      invariant i <= |args| && |words| == i
      invariant forall j :: 0 <= j < i ==> words[j] == Escaped(args[j])
    {
      var e := WindowsEscapeArg(args[i]);
      words := words + [e];
      i := i + 1;
    }
    TailIsSpaced(args, words);
  }

  /** What the Java launcher does with the arguments: escape each, then build the line. */
  method LauncherCommandLine(executable: Text, args: seq<Text>, buffer: array<WChar>) returns (died: bool)
    requires buffer.Length == MAX_CMDLINE_LENGTH
    modifies buffer
    ensures died <==> |Assembled(executable, args)| >= MAX_CMDLINE_LENGTH
    ensures !died ==> (SplitCommandLine(UpToNul(buffer[..])) == [executable] + args <==> Passable(executable, args))
  {
    var words := EscapeAll(args);
    died := CreateCommandLine(executable, words, buffer);
    RoundTripIff(executable, args);
  }

  // ---------------------------------------------------------------- arguments that do not come back

  /** A tab alone is not quoted, so the argument is split at it. */
  lemma TabDoesNotComeBack(executable: Text)
    ensures SplitCommandLine(UpToNul(Assembled(executable, [[TAB]]))) != [executable] + [[TAB]]
  {
    var args := [[TAB]];
    assert TAB in args[0] && !NeedsEscaping(args[0]) && !Safe(args[0]);
    RoundTripIff(executable, args);
  }

  /** U+0122 passes for a quote, so it comes back as one. */
  lemma FakeQuoteDoesNotComeBack(executable: Text)
    ensures SplitCommandLine(UpToNul(Assembled(executable, [[SPACE, 0x122]]))) != [executable] + [[SPACE, 0x122]]
  {
    var args := [[SPACE, 0x122]];
    assert Fake(args[0][1]) && SPACE in args[0] && !Safe(args[0]);
    RoundTripIff(executable, args);
  }
}
