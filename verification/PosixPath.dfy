/** POSIX path normalisation, joining and splitting. */
module PosixPath {
  import opened Basics
  import opened PathSegments

  predicate Slash(c: char) { c == '/' }

  predicate IsAbsolute(p: string) { p != [] && p[0] == '/' }

  predicate EndsWithSlash(p: string) { p != [] && p[|p| - 1] == '/' }

  function Segments(p: string): seq<string> { Segs(p, Slash, []) }

  // ---------------------------------------------------------------- the stack walk

  function Step(stack: seq<string>, seg: string): seq<string> {
    if seg == DOTDOT then if stack == [] then [] else stack[..|stack| - 1]
    else if seg == DOT then stack
    else stack + [seg]
  }

  function Walk(stack: seq<string>, segs: seq<string>): seq<string>
    decreases |segs|
  {
    if segs == [] then stack else Walk(Step(stack, segs[0]), segs[1..])
  }

  /** The names from the root down to where p leads. */
  function Located(p: string): seq<string> { Walk([], Segments(p)) }

  function Slashed(names: seq<string>): string {
    if names == [] then [] else Slashed(names[..|names| - 1]) + (['/'] + names[|names| - 1])
  }

  function Render(names: seq<string>, trailing: bool): string {
    if names == [] then "/" else Slashed(names) + if trailing then "/" else []
  }

  function Normalized(p: string): string {
    if !IsAbsolute(p) then [] else Render(Located(p), EndsWithSlash(p))
  }

  predicate Name(s: string) { Solid(s, Slash) && s != DOT && s != DOTDOT }

  predicate Names(stack: seq<string>) { forall i :: 0 <= i < |stack| ==> Name(stack[i]) }

  lemma {:induction false} WalkKeepsNames(stack: seq<string>, segs: seq<string>)
    requires Names(stack) && AllSolid(segs, Slash)
    ensures Names(Walk(stack, segs))
    decreases |segs|
  {
    if segs != [] {
      assert Solid(segs[0], Slash);
      WalkKeepsNames(Step(stack, segs[0]), segs[1..]);
    }
  }

  lemma LocatedNames(p: string)
    ensures Names(Located(p))
  {
    SegsSolid(p, Slash, []);
    WalkKeepsNames([], Segments(p));
  }

  lemma {:induction false} WalkConcat(stack: seq<string>, a: seq<string>, b: seq<string>)
    ensures Walk(stack, a + b) == Walk(Walk(stack, a), b)
    decreases |a|
  {
    if a == [] {
      Nothing(b);
    } else {
      assert (a + b)[1..] == a[1..] + b;
      WalkConcat(Step(stack, a[0]), a[1..], b);
    }
  }

  /** Names alone are walked as they stand. */
  lemma {:induction false} WalkNames(stack: seq<string>, names: seq<string>)
    requires Names(names)
    ensures Walk(stack, names) == stack + names
    decreases |names|
  {
    if names == [] {
      Nothing(stack);
    } else {
      assert Name(names[0]);
      WalkNames(stack + [names[0]], names[1..]);
      assert stack + [names[0]] + names[1..] == stack + names;
    }
  }

  lemma StepResolves<Node(!new)>(t: Tree<Node>, stack: seq<string>, seg: string)
    requires Lawful(t) && Names(stack) && Solid(seg, Slash)
    ensures Resolve(t, t.root, Step(stack, seg)) == Enter(t, Resolve(t, t.root, stack), seg)
  {
    if seg == DOTDOT && stack != [] {
      var init, last := stack[..|stack| - 1], stack[|stack| - 1];
      assert stack == init + [last];
      assert Name(last);
      ResolveConcat(t, t.root, init, [last]);
    } else if seg != DOTDOT && seg != DOT {
      ResolveConcat(t, t.root, stack, [seg]);
    }
  }

  lemma {:induction false} WalkResolves<Node(!new)>(t: Tree<Node>, stack: seq<string>, segs: seq<string>)
    requires Lawful(t) && Names(stack) && AllSolid(segs, Slash)
    ensures Resolve(t, t.root, Walk(stack, segs)) == Resolve(t, Resolve(t, t.root, stack), segs)
    decreases |segs|
  {
    if segs != [] {
      assert Solid(segs[0], Slash);
      StepResolves(t, stack, segs[0]);
      WalkResolves(t, Step(stack, segs[0]), segs[1..]);
    }
  }

  // ---------------------------------------------------------------- reading back what was rendered

  lemma SegmentsCut(a: string, b: string)
    ensures Segments(a + (['/'] + b)) == Segments(a) + Segments(b)
  {
    SegsCut(a, '/', b, Slash, []);
  }

  lemma SegmentsTrailing(a: string)
    ensures Segments(a + "/") == Segments(a)
  {
    SegmentsCut(a, []);
    Nothing("/");
    Nothing(Segments(a));
  }

  lemma {:induction false} SegmentsOfSlashed(names: seq<string>)
    requires Names(names)
    ensures Segments(Slashed(names)) == names
    ensures names != [] ==> IsAbsolute(Slashed(names)) && !EndsWithSlash(Slashed(names))
  {
    if names != [] {
      var init, last := names[..|names| - 1], names[|names| - 1];
      assert Name(last);
      SegmentsOfSlashed(init);
      SegmentsCut(Slashed(init), last);
      SegsOne(last, Slash);
      assert init + [last] == names;
      assert Slash(last[|last| - 1]) == (last[|last| - 1] == '/');
    }
  }

  lemma RootReads(trailing: bool)
    ensures Segments(Render([], trailing)) == []
  {
    SegmentsTrailing([]);
    Nothing("/");
  }

  lemma SlashedReads(names: seq<string>, trailing: bool)
    requires Names(names) && names != []
    ensures var r := Render(names, trailing);
            Segments(r) == names && IsAbsolute(r) && EndsWithSlash(r) == trailing
  {
    SegmentsOfSlashed(names);
    SegmentsTrailing(Slashed(names));
    Nothing(Slashed(names));
  }

  lemma RenderReads(names: seq<string>, trailing: bool)
    requires Names(names)
    ensures Segments(Render(names, trailing)) == names && Located(Render(names, trailing)) == names
    ensures IsAbsolute(Render(names, trailing))
    ensures names != [] ==> EndsWithSlash(Render(names, trailing)) == trailing
  {
    if names == [] { RootReads(trailing); } else { SlashedReads(names, trailing); }
    WalkNames([], names);
    Nothing(names);
  }

  // ---------------------------------------------------------------- the results

  /** The result is absolute, has no `.`, `..` or empty segment, and leads where p leads, in
      every directory tree. */
  lemma NormalizedMeaning<Node(!new)>(p: string, t: Tree<Node>)
    requires IsAbsolute(p) && Lawful(t)
    ensures IsAbsolute(Normalized(p)) && Names(Segments(Normalized(p)))
    ensures Resolve(t, t.root, Segments(Normalized(p))) == Resolve(t, t.root, Segments(p))
  {
    LocatedNames(p);
    RenderReads(Located(p), EndsWithSlash(p));
    SegsSolid(p, Slash, []);
    WalkResolves(t, [], Segments(p));
  }

  /** The tree of all name sequences. */
  function FreeChild(n: seq<string>, name: string): seq<string> { n + [name] }

  function FreeParent(n: seq<string>): seq<string> { if n == [] then [] else n[..|n| - 1] }

  function FreeTree(): Tree<seq<string>> { Tree([], FreeChild, FreeParent) }

  lemma FreeTreeLawful()
    ensures Lawful(FreeTree())
  {
  }

  lemma {:induction false} FreeResolve(n: seq<string>, names: seq<string>)
    requires Names(names)
    ensures Resolve(FreeTree(), n, names) == n + names
    decreases |names|
  {
    if names == [] {
      Nothing(n);
    } else {
      assert Name(names[0]);
      FreeResolve(n + [names[0]], names[1..]);
      assert n + [names[0]] + names[1..] == n + names;
    }
  }

  ghost predicate SamePlace(p: string, q: string) {
    Resolve(FreeTree(), [], Segments(p)) == Resolve(FreeTree(), [], Segments(q))
  }

  lemma PlaceIsLocated(p: string)
    ensures Resolve(FreeTree(), [], Segments(p)) == Located(p)
  {
    FreeTreeLawful();
    LocatedNames(p);
    SegsSolid(p, Slash, []);
    WalkResolves(FreeTree(), [], Segments(p));
    FreeResolve([], Located(p));
    Nothing(Located(p));
  }

  /** Two absolute paths have one normal form if and only if they lead to the same place and,
      below the root, agree on a trailing slash. */
  lemma NormalFormIff(p: string, q: string)
    requires IsAbsolute(p) && IsAbsolute(q)
    ensures Normalized(p) == Normalized(q) <==>
            SamePlace(p, q) && (SamePlace(p, "/") || EndsWithSlash(p) == EndsWithSlash(q))
  {
    PlaceIsLocated(p);
    PlaceIsLocated(q);
    PlaceIsLocated("/");
    RenderReads([], false);
    LocatedNames(p);
    LocatedNames(q);
    RenderReads(Located(p), EndsWithSlash(p));
    RenderReads(Located(q), EndsWithSlash(q));
  }

  lemma Idempotent(p: string)
    ensures Normalized(Normalized(p)) == Normalized(p)
  {
    if IsAbsolute(p) {
      LocatedNames(p);
      RenderReads(Located(p), EndsWithSlash(p));
    }
  }

  // ---------------------------------------------------------------- joining

  function JoinPath(a: string, b: string): string {
    if a == [] then b
    else if EndsWithSlash(a) then
      if IsAbsolute(b) then a + b[1..] else a + b
    else
      if IsAbsolute(b) then a + b else a + "/" + b
  }

  /** The result has exactly one slash at the seam: one that `a` ends with and one that `b`
      begins with are not written twice. */
  lemma JoinSeam(a: string, b: string)
    ensures JoinPath([], b) == b
    ensures a != [] ==>
              JoinPath(a, b) == (if a[|a| - 1] == '/' then a[..|a| - 1] else a) + "/"
                                + (if b != [] && b[0] == '/' then b[1..] else b)
  {
  }

  lemma SeamSegments(head: string, tail: string)
    ensures Segments(head + "/" + tail) == Segments(head) + Segments(tail)
  {
    Regroup(head, "/", tail);
    SegmentsCut(head, tail);
  }

  lemma TrailingSlash(a: string)
    ensures EndsWithSlash(a) ==> Segments(a) == Segments(a[..|a| - 1])
  {
    if EndsWithSlash(a) {
      var head := a[..|a| - 1];
      assert a == head + "/";
      SegmentsTrailing(head);
    }
  }

  lemma JoinSegments(a: string, b: string)
    ensures Segments(JoinPath(a, b)) == Segments(a) + Segments(b)
  {
    if a == [] {
      Nothing(Segments(b));
    } else {
      LeadingSlash(b);
      TrailingSlash(a);
      JoinSeam(a, b);
      SeamSegments(if EndsWithSlash(a) then a[..|a| - 1] else a, if IsAbsolute(b) then b[1..] else b);
    }
  }

  lemma LeadingSlash(b: string)
    ensures IsAbsolute(b) ==> Segments(b) == Segments(b[1..])
  {
    if IsAbsolute(b) {
      SegmentsCut([], b[1..]);
      assert [] + (['/'] + b[1..]) == b;
      Nothing(Segments(b[1..]));
    }
  }

  lemma JoinShape(a: string, b: string)
    requires IsAbsolute(a)
    ensures IsAbsolute(JoinPath(a, b)) && (EndsWithSlash(JoinPath(a, b)) <==> b == [] || EndsWithSlash(b))
  {
  }

  /** Normalising the first half beforehand changes nothing. */
  lemma JoinCongruence(a: string, b: string)
    requires IsAbsolute(a)
    ensures Normalized(JoinPath(Normalized(a), b)) == Normalized(JoinPath(a, b))
  {
    var n := Normalized(a);
    LocatedNames(a);
    RenderReads(Located(a), EndsWithSlash(a));
    JoinSegments(a, b);
    JoinSegments(n, b);
    JoinShape(a, b);
    JoinShape(n, b);
    WalkConcat([], Segments(a), Segments(b));
    WalkConcat([], Segments(n), Segments(b));
  }

  // ---------------------------------------------------------------- splitting

  /** `rfind('/')`; -1 when there is none. */
  function LastSlash(p: string): (k: int)
    ensures -1 <= k < |p|
    ensures k >= 0 ==> p[k] == '/'
    ensures forall i :: k < i < |p| ==> p[i] != '/'
  {
    if p == [] then -1 else if p[|p| - 1] == '/' then |p| - 1 else LastSlash(p[..|p| - 1])
  }

  function SplitPath(p: string): (string, string) {
    var pos := LastSlash(p);
    if pos < 0 then ([], p)
    else if pos == 0 then (p[..1], p[1..])
    else (p[..pos], p[pos + 1..])
  }

  predicate DoubleAt(p: string, i: nat) { i + 1 < |p| && p[i] == '/' && p[i + 1] == '/' }

  /** No slash stands just before the last one. */
  predicate LastSlashIsSingle(p: string) {
    forall i: nat | i < |p| :: DoubleAt(p, i) ==> '/' in p[i + 2..]
  }

  lemma SplitJoinIff(p: string)
    ensures JoinPath(SplitPath(p).0, SplitPath(p).1) == p <==> LastSlashIsSingle(p)
  {
    var pos := LastSlash(p);
    if pos > 0 {
      assert p == p[..pos] + "/" + p[pos + 1..];
      SplitJoinInside(p[..pos], p[pos + 1..]);
    } else if pos == 0 {
      assert p[..1] + p[1..] == p;
    }
  }

  /** The halves of "//" join to "/". */
  lemma DoubleSlashDoesNotJoin()
    ensures JoinPath(SplitPath("//").0, SplitPath("//").1) != "//"
  {
    assert DoubleAt("//", 0) && "//"[2..] == [];
    SplitJoinIff("//");
  }

  lemma SplitJoinInside(a: string, b: string)
    requires a != [] && '/' !in b
    ensures var p := a + "/" + b;
            JoinPath(SplitPath(p).0, SplitPath(p).1) == p <==> LastSlashIsSingle(p)
  {
    SplitAt(a, b);
    SingleIff(a, b);
    JoinAddsSlashIff(a, b);
  }

  lemma JoinAddsSlashIff(a: string, b: string)
    requires a != [] && '/' !in b
    ensures JoinPath(a, b) == a + "/" + b <==> !EndsWithSlash(a)
  {
    assert |a + b| < |a + "/" + b|;
  }

  lemma SingleIff(a: string, b: string)
    requires a != [] && '/' !in b
    ensures LastSlashIsSingle(a + "/" + b) <==> !EndsWithSlash(a)
  {
    var p := a + "/" + b;
    if EndsWithSlash(a) {
      assert DoubleAt(p, |a| - 1);
      assert p[|a| + 1..] == b;
    } else {
      assert p[|a|] == '/';
      forall i: nat | i < |p| && DoubleAt(p, i) ensures '/' in p[i + 2..] { DoubleIsEarly(a, b, i); }
    }
  }

  lemma DoubleIsEarly(a: string, b: string, i: nat)
    requires '/' !in b && !EndsWithSlash(a) && DoubleAt(a + "/" + b, i)
    ensures '/' in (a + "/" + b)[i + 2..]
  {
    var p := a + "/" + b;
    assert p[|a|] == '/' && forall k :: |a| < k < |p| ==> p[k] == b[k - |a| - 1];
    assert i + 1 < |a|;
    assert p[i + 2..][|a| - (i + 2)] == '/';
  }

  lemma {:induction false} SlashedHasNoDouble(names: seq<string>, i: nat)
    requires Names(names)
    ensures !DoubleAt(Slashed(names), i)
  {
    if names != [] {
      var init, last := names[..|names| - 1], names[|names| - 1];
      assert Name(last);
      SlashedHasNoDouble(init, i);
      SegmentsOfSlashed(init);
      assert forall k :: 0 <= k < |last| ==> !Slash(last[k]);
    }
  }

  /** The two halves of a normalised path join to that path. */
  lemma NormalizedSplitJoin(p: string)
    ensures JoinPath(SplitPath(Normalized(p)).0, SplitPath(Normalized(p)).1) == Normalized(p)
  {
    var n := Normalized(p);
    var names := Located(p);
    LocatedNames(p);
    SegmentsOfSlashed(names);
    forall i: nat | i < |n| ensures !DoubleAt(n, i) { SlashedHasNoDouble(names, i); }
    SplitJoinIff(n);
  }

  // ---------------------------------------------------------------- the Path class

  /** `path_` of an object of class Path. */
  datatype Path = Path(text: string)

  function MakeAbsolute(path: string, cwd: string): string {
    if IsAbsolute(path) || path == [] then path else JoinPath(cwd, path)
  }

  function NewPath(path: string, cwd: string): Path { Path(Normalized(MakeAbsolute(path, cwd))) }

  function GetRelative(path: Path, r: string, cwd: string): Path { NewPath(JoinPath(path.text, r), cwd) }

  function GetParent(path: Path, cwd: string): Path { NewPath(SplitPath(path.text).0, cwd) }

  /** Going to r from a path is the path of the two joined before any normalisation. */
  lemma RelativeIsJoin(a: string, r: string, cwd: string)
    requires IsAbsolute(a)
    ensures GetRelative(NewPath(a, cwd), r, cwd) == NewPath(JoinPath(a, r), cwd)
  {
    JoinCongruence(a, r);
    LocatedNames(a);
    RenderReads(Located(a), EndsWithSlash(a));
    JoinShape(a, r);
    JoinShape(Normalized(a), r);
  }

  /** A path leads where it says from the root, or from the working directory if it is
      relative; going to r from there goes on with r. */
  lemma PathLeads<Node(!new)>(path: string, r: string, cwd: string, t: Tree<Node>)
    requires IsAbsolute(cwd) && path != [] && Lawful(t)
    ensures var start := if path[0] == '/' then t.root else Resolve(t, t.root, Segments(cwd));
            var there := Resolve(t, start, Segments(path));
            && Resolve(t, t.root, Segments(NewPath(path, cwd).text)) == there
            && Resolve(t, t.root, Segments(GetRelative(NewPath(path, cwd), r, cwd).text)) ==
               Resolve(t, there, Segments(r))
  {
    var p := MakeAbsolute(path, cwd);
    JoinShape(cwd, path);
    JoinSegments(cwd, path);
    ResolveConcat(t, t.root, Segments(cwd), Segments(path));
    NormalizedMeaning(p, t);
    var q := JoinPath(Normalized(p), r);
    JoinShape(Normalized(p), r);
    JoinSegments(Normalized(p), r);
    ResolveConcat(t, t.root, Segments(Normalized(p)), Segments(r));
    NormalizedMeaning(q, t);
  }

  lemma RelativeInTwoSteps(a: string, r: string, s: string, cwd: string)
    requires IsAbsolute(a)
    ensures GetRelative(GetRelative(NewPath(a, cwd), r, cwd), s, cwd) == NewPath(JoinPath(JoinPath(a, r), s), cwd)
  {
    RelativeIsJoin(a, r, cwd);
    JoinShape(a, r);
    RelativeIsJoin(JoinPath(a, r), s, cwd);
  }

  lemma {:induction false} LastSlashOf(a: string, b: string)
    requires '/' !in b
    ensures LastSlash(a + "/" + b) == |a|
  {
    var p := a + "/" + b;
    assert p[|a|] == '/';
    assert forall k :: |a| < k < |p| ==> p[k] == b[k - |a| - 1];
  }

  lemma SlashedSplit(names: seq<string>)
    requires Names(names) && names != []
    ensures SplitPath(Slashed(names)) == (Render(names[..|names| - 1], false), names[|names| - 1])
  {
    var init, last := names[..|names| - 1], names[|names| - 1];
    assert Name(last);
    assert forall k :: 0 <= k < |last| ==> !Slash(last[k]);
    var a := Slashed(init);
    Regroup(a, "/", last);
    SegmentsOfSlashed(init);
    SplitAt(a, last);
    Nothing(a);
  }

  lemma SplitAt(a: string, b: string)
    requires '/' !in b
    ensures SplitPath(a + "/" + b) == (if a == [] then "/" else a, b)
  {
    var p := a + "/" + b;
    LastSlashOf(a, b);
    assert p[..|a|] == a && p[|a| + 1..] == b && (a == [] ==> p[..1] == "/");
  }

  lemma ParentOfRoot()
    ensures SplitPath("/").0 == "/"
  {
    LastSlashOf([], []);
    assert [] + "/" + [] == "/";
  }

  lemma TrailingSplit(q: string)
    requires q != []
    ensures SplitPath(q + "/").0 == q
  {
    LastSlashOf(q, []);
    Nothing(q + "/");
    assert (q + "/")[..|q|] == q;
  }

  lemma NewPathOfRendered(names: seq<string>, cwd: string)
    requires Names(names)
    ensures NewPath(Render(names, false), cwd) == Path(Render(names, false))
  {
    RenderReads(names, false);
  }

  /** The parent drops the last name, and the root is its own parent; a trailing slash is
      all that is dropped from a path that has one. */
  lemma ParentOf(a: string, cwd: string)
    requires IsAbsolute(a)
    ensures var names := Located(a);
            GetParent(NewPath(a, cwd), cwd) ==
            Path(if names == [] then "/"
                 else if EndsWithSlash(a) then Render(names, false)
                 else Render(names[..|names| - 1], false))
  {
    LocatedNames(a);
    ParentOfRendered(Located(a), EndsWithSlash(a), cwd);
  }

  lemma ParentOfRendered(names: seq<string>, trailing: bool, cwd: string)
    requires Names(names)
    ensures GetParent(Path(Render(names, trailing)), cwd) ==
            Path(if names == [] then "/"
                 else if trailing then Render(names, false)
                 else Render(names[..|names| - 1], false))
  {
    if names == [] {
      ParentOfRoot();
      NewPathOfRendered([], cwd);
    } else {
      SegmentsOfSlashed(names);
      Nothing(Slashed(names));
      if trailing {
        TrailingSplit(Slashed(names));
        NewPathOfRendered(names, cwd);
      } else {
        SlashedSplit(names);
        NewPathOfRendered(names[..|names| - 1], cwd);
      }
    }
  }

  /** The parent of a child is the directory itself, without a trailing slash. */
  lemma ParentOfChild(a: string, name: string, cwd: string)
    requires IsAbsolute(a) && Name(name)
    ensures GetParent(GetRelative(NewPath(a, cwd), name, cwd), cwd) == Path(Render(Located(a), false))
  {
    var p := JoinPath(a, name);
    RelativeIsJoin(a, name, cwd);
    JoinShape(a, name);
    assert !Slash(name[|name| - 1]);
    JoinSegments(a, name);
    SegsOne(name, Slash);
    WalkConcat([], Segments(a), [name]);
    assert Walk(Located(a), [name]) == Located(a) + [name];
    ParentOf(p, cwd);
  }

  // ---------------------------------------------------------------- the loop

  /** `find_first_of('/', s)`, with the length for npos. */
  method FindSlash(p: string, s: nat) returns (e: nat)
    requires s <= |p|
    ensures s <= e <= |p| && Free(p[s..e], Slash) && (e < |p| ==> p[e] == '/')
  {
    e := s;
    while e < |p| && p[e] != '/'
      invariant s <= e <= |p| && Free(p[s..e], Slash)
    {
      assert p[s..e + 1] == p[s..e] + [p[e]] && !Slash(p[e]);
      e := e + 1;
    }
  }

  /** Cutting the segment p[s..e] off what is left to read. */
  lemma NextSegment(p: string, s: nat, e: nat)
    requires s <= e <= |p| && Free(p[s..e], Slash) && (e < |p| ==> p[e] == '/')
    ensures Segments(p[s..]) == Flush(p[s..e]) + (if e < |p| then Segments(p[e + 1..]) else [])
  {
    var w := p[s..e];
    if e == |p| {
      assert p[s..] == w;
      Nothing(w);
      SegsRun(w, [], Slash, []);
      Nothing(Flush(w));
    } else {
      assert p[s..] == w + (['/'] + p[e + 1..]);
      SegmentsCut(w, p[e + 1..]);
      SegsRun(w, [], Slash, []);
      Nothing(w);
    }
  }

  method OneSegment(p: string, s: nat, e: nat, segments: seq<(nat, nat)>) returns (r: seq<(nat, nat)>)
    requires s <= e <= |p| && InRange(p, segments)
    ensures InRange(p, r) && Texts(p, r) == Walk(Texts(p, segments), Flush(p[s..e]))
  {
    r := segments;
    if e > s {
      var w := p[s..e];
      assert Walk(Texts(p, segments), [w]) == Step(Texts(p, segments), w);
      if w == DOTDOT {
        if segments != [] {
          TextsPop(p, segments);
          r := segments[..|segments| - 1];
        }
      } else if w != DOT {
        TextsPush(p, segments, s, e);
        r := segments + [(s, e - s)];
      }
    }
  }

  function Rest(p: string, s: nat): seq<string> { if s <= |p| then Segments(p[s..]) else [] }

  /** Walking what is left to read from the segments kept so far leads where p leads. */
  ghost predicate Ahead(p: string, s: nat, segments: seq<(nat, nat)>) {
    InRange(p, segments) && Walk(Texts(p, segments), Rest(p, s)) == Located(p)
  }

  lemma AheadStart(p: string)
    ensures Ahead(p, 0, [])
  {
    assert p[0..] == p;
  }

  lemma AheadEnd(p: string, s: nat, segments: seq<(nat, nat)>)
    requires s >= |p| && Ahead(p, s, segments)
    ensures InRange(p, segments) && Texts(p, segments) == Located(p)
  {
  }

  lemma AheadStep(p: string, s: nat, e: nat, next: nat, segments: seq<(nat, nat)>, r: seq<(nat, nat)>)
    requires s <= e <= |p| && next == e + 1 && Free(p[s..e], Slash) && (e < |p| ==> p[e] == '/')
             && Ahead(p, s, segments)
    requires InRange(p, r) && Texts(p, r) == Walk(Texts(p, segments), Flush(p[s..e]))
    ensures Ahead(p, next, r)
  {
    NextSegment(p, s, e);
    WalkConcat(Texts(p, segments), Flush(p[s..e]), Rest(p, next));
  }

  /** One turn of the loop. */
  method NextKept(p: string, s: nat, segments: seq<(nat, nat)>) returns (next: nat, kept: seq<(nat, nat)>)
    requires s < |p| && Ahead(p, s, segments)
    ensures s < next <= |p| + 1 && Ahead(p, next, kept)
  {
    var e := FindSlash(p, s);
    kept := OneSegment(p, s, e, segments);
    next := e + 1;
    AheadStep(p, s, e, next, segments, kept);
  }

  method KeptSegments(p: string) returns (segments: seq<(nat, nat)>)
    ensures InRange(p, segments) && Texts(p, segments) == Located(p)
  {
    segments := [];
    var s := 0;
    AheadStart(p);
    while s < |p|
      invariant 0 <= s <= |p| + 1 && Ahead(p, s, segments)
    {
      s, segments := NextKept(p, s, segments);
    }
    AheadEnd(p, s, segments);
  }

  method NormalizeAbsPath(p: string) returns (result: string)
    ensures result == Normalized(p)
  {
    if p == [] || p[0] != '/' { return []; }
    var segments := KeptSegments(p);
    result := WriteSegments(p, segments);
    if segments == [] {
      result := "/";
    } else if p[|p| - 1] == '/' {
      result := result + "/";
    } else {
      Nothing(result);
    }
  }

  method WriteSegments(p: string, segments: seq<(nat, nat)>) returns (r: string)
    requires InRange(p, segments)
    ensures r == Slashed(Texts(p, segments))
  {
    r := [];
    for k := 0 to |segments|
      invariant r == Slashed(Texts(p, segments)[..k])
    {
      var names := Texts(p, segments);
      var (start, len) := segments[k];
      assert names[..k + 1][..k] == names[..k];
      r := r + (['/'] + p[start..start + len]);
    }
    assert Texts(p, segments)[..|segments|] == Texts(p, segments);
  }
}
