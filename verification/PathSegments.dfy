/** Paths as sequences of segments: the maximal stretches between separators. */
module PathSegments {
  import opened Basics

  const DOT := "."
  const DOTDOT := ".."

  type Separator = char -> bool

  function Flush(cur: string): seq<string> { if cur == "" then [] else [cur] }

  /** The segments of `cur + s`, where `cur` is a segment already begun. */
  function Segs(s: string, sep: Separator, cur: string): seq<string>
    decreases |s|
  {
    if s == [] then Flush(cur)
    else if sep(s[0]) then Flush(cur) + Segs(s[1..], sep, [])
    else Segs(s[1..], sep, cur + [s[0]])
  }

  predicate Free(s: string, sep: Separator) { forall i :: 0 <= i < |s| ==> !sep(s[i]) }

  predicate Solid(s: string, sep: Separator) { s != [] && Free(s, sep) }

  predicate AllSolid(segs: seq<string>, sep: Separator) { forall i :: 0 <= i < |segs| ==> Solid(segs[i], sep) }

  lemma {:induction false} SegsSolid(s: string, sep: Separator, cur: string)
    requires Free(cur, sep)
    ensures AllSolid(Segs(s, sep, cur), sep)
    decreases |s|
  {
    if s != [] {
      if sep(s[0]) { SegsSolid(s[1..], sep, []); } else { SegsSolid(s[1..], sep, cur + [s[0]]); }
    }
  }

  /** Characters that are no separators go on with the segment that is open. */
  lemma {:induction false} SegsRun(w: string, t: string, sep: Separator, cur: string)
    requires Free(w, sep)
    ensures Segs(w + t, sep, cur) == Segs(t, sep, cur + w)
    decreases |w|
  {
    if w == [] {
      assert w + t == t && cur + w == cur;
    } else {
      assert (w + t)[1..] == w[1..] + t;
      SegsRun(w[1..], t, sep, cur + [w[0]]);
      assert cur + [w[0]] + w[1..] == cur + w;
    }
  }

  /** A separator cuts the path in two. */
  lemma {:induction false} SegsCut(a: string, x: char, b: string, sep: Separator, cur: string)
    requires sep(x)
    ensures Segs(a + ([x] + b), sep, cur) == Segs(a, sep, cur) + Segs(b, sep, [])
    decreases |a|
  {
    if a == [] {
      assert a + ([x] + b) == [x] + b;
      assert ([x] + b)[1..] == b;
    } else {
      assert (a + ([x] + b))[1..] == a[1..] + ([x] + b);
      if sep(a[0]) {
        SegsCut(a[1..], x, b, sep, []);
        Regroup(Flush(cur), Segs(a[1..], sep, []), Segs(b, sep, []));
      } else {
        SegsCut(a[1..], x, b, sep, cur + [a[0]]);
      }
    }
  }

  /** A solid piece in front of a separator, or of the end, is one segment. */
  lemma SegsHead(w: string, t: string, sep: Separator)
    requires Solid(w, sep) && (t == [] || sep(t[0]))
    ensures Segs(w + t, sep, []) == [w] + Segs(t, sep, [])
  {
    SegsRun(w, t, sep, []);
    Nothing(w);
    assert Segs(t, sep, w) == [w] + Segs(t, sep, []);
  }

  lemma SegsOne(w: string, sep: Separator)
    requires Solid(w, sep)
    ensures Segs(w, sep, []) == [w]
  {
    SegsHead(w, [], sep);
    Nothing(w);
  }

  /** Reads from a list of (start, length) pairs what they stand for. */
  ghost function Texts(p: string, pairs: seq<(nat, nat)>): seq<string>
    requires InRange(p, pairs)
  {
    seq(|pairs|, i requires 0 <= i < |pairs| => p[pairs[i].0..pairs[i].0 + pairs[i].1])
  }

  ghost predicate InRange(p: string, pairs: seq<(nat, nat)>) {
    forall i :: 0 <= i < |pairs| ==> pairs[i].0 + pairs[i].1 <= |p|
  }

  lemma TextsPush(p: string, pairs: seq<(nat, nat)>, start: nat, end: nat)
    requires InRange(p, pairs) && start <= end <= |p|
    ensures InRange(p, pairs + [(start, end - start)])
    ensures Texts(p, pairs + [(start, end - start)]) == Texts(p, pairs) + [p[start..end]]
  {
  }

  lemma TextsPop(p: string, pairs: seq<(nat, nat)>)
    requires InRange(p, pairs) && pairs != []
    ensures InRange(p, pairs[..|pairs| - 1])
    ensures Texts(p, pairs[..|pairs| - 1]) == Texts(p, pairs)[..|pairs| - 1]
  {
  }

  // ---------------------------------------------------------------- what a path means

  /** A directory tree without links: every name leads to a child, and `..` leads back. */
  datatype Tree<!Node> = Tree(root: Node, child: (Node, string) -> Node, parent: Node -> Node)

  ghost predicate Lawful<Node(!new)>(t: Tree<Node>) {
    t.parent(t.root) == t.root && forall n, name :: t.parent(t.child(n, name)) == n
  }

  function Enter<Node>(t: Tree<Node>, n: Node, seg: string): Node {
    if seg == DOTDOT then t.parent(n) else if seg == DOT then n else t.child(n, seg)
  }

  /** Where the segments lead from n. */
  function Resolve<Node>(t: Tree<Node>, n: Node, segs: seq<string>): Node
    decreases |segs|
  {
    if segs == [] then n else Resolve(t, Enter(t, n, segs[0]), segs[1..])
  }

  lemma {:induction false} ResolveConcat<Node>(t: Tree<Node>, n: Node, a: seq<string>, b: seq<string>)
    ensures Resolve(t, n, a + b) == Resolve(t, Resolve(t, n, a), b)
    decreases |a|
  {
    if a == [] {
      Nothing(b);
    } else {
      assert (a + b)[1..] == a[1..] + b;
      ResolveConcat(t, Enter(t, n, a[0]), a[1..], b);
    }
  }
}
