/** Dead-code removal for translated Java files: which files are reachable from the entry
    classes, and which sources are emptied. */
module Pruner {
  import opened Basics

  type File = string

  /** Each file's direct dependencies. */
  type Tree = map<File, seq<File>>

  predicate Lists(deps: seq<File>, s: set<File>) { forall i :: 0 <= i < |deps| ==> deps[i] in s }

  function Deps(tree: Tree, f: File): seq<File> { if f in tree then tree[f] else [] }

  // ---------------------------------------------------------------- what reachable means

  ghost predicate Closed(tree: Tree, s: set<File>) { forall f :: f in s ==> Lists(Deps(tree, f), s) }

  /** `r` is the least set that contains the entries and is closed under dependencies. */
  ghost predicate Least(tree: Tree, entries: seq<File>, r: set<File>) {
    Lists(entries, r) && Closed(tree, r) && forall s :: Lists(entries, s) && Closed(tree, s) ==> r <= s
  }

  /** A chain of dependencies, each file listed by the one before it. */
  ghost predicate Chain(tree: Tree, path: seq<File>) {
    path != [] && forall i :: 0 < i < |path| ==> Follows(tree, path, i)
  }

  ghost predicate Follows(tree: Tree, path: seq<File>, i: int)
    requires 0 < i < |path|
  {
    path[i] in Deps(tree, path[i - 1])
  }

  ghost predicate Leads(tree: Tree, entries: seq<File>, path: seq<File>, f: File) {
    Chain(tree, path) && path[0] in entries && path[|path| - 1] == f
  }

  lemma {:induction false} ChainStays(tree: Tree, s: set<File>, path: seq<File>, i: nat)
    requires Chain(tree, path) && Closed(tree, s) && path[0] in s && i < |path|
    ensures path[i] in s
  {
    if i > 0 {
      ChainStays(tree, s, path, i - 1);
      assert Follows(tree, path, i);
    }
  }

  ghost predicate Chained(tree: Tree, entries: seq<File>, f: File) { exists path :: Leads(tree, entries, path, f) }

  lemma ChainGrows(tree: Tree, entries: seq<File>, path: seq<File>, f: File, d: File)
    requires Leads(tree, entries, path, f) && d in Deps(tree, f)
    ensures Leads(tree, entries, path + [d], d)
  {
    var q := path + [d];
    forall i | 0 < i < |q| ensures Follows(tree, q, i) {
      if i < |path| { assert Follows(tree, path, i); }
    }
  }

  lemma EntryChained(tree: Tree, entries: seq<File>, f: File)
    requires f in entries
    ensures Chained(tree, entries, f)
  {
    assert Leads(tree, entries, [f], f);
  }

  lemma ChainedClosed(tree: Tree, entries: seq<File>, r: set<File>)
    requires Lists(entries, r) && Closed(tree, r)
    ensures Closed(tree, set f | f in r && Chained(tree, entries, f))
  {
    var s := set f | f in r && Chained(tree, entries, f);
    forall f, i | f in s && 0 <= i < |Deps(tree, f)| ensures Deps(tree, f)[i] in s {
      var path :| Leads(tree, entries, path, f);
      ChainGrows(tree, entries, path, f, Deps(tree, f)[i]);
      assert Lists(Deps(tree, f), r);
    }
  }

  /** The least closed set holds exactly the files that a chain of dependencies leads to. */
  lemma LeastIsChained(tree: Tree, entries: seq<File>, r: set<File>, f: File)
    requires Least(tree, entries, r)
    ensures f in r <==> Chained(tree, entries, f)
  {
    var s := set f | f in r && Chained(tree, entries, f);
    ChainedClosed(tree, entries, r);
    forall i | 0 <= i < |entries| ensures entries[i] in s { EntryChained(tree, entries, entries[i]); }
    assert r <= s;
    if Chained(tree, entries, f) {
      var path :| Leads(tree, entries, path, f);
      ChainStays(tree, r, path, |path| - 1);
    }
  }

  // ---------------------------------------------------------------- the level loop

  /** Everything that can ever be added. */
  ghost function Universe(tree: Tree, entries: seq<File>): set<File> {
    (set i | 0 <= i < |entries| :: entries[i]) + (set f, i | f in tree && 0 <= i < |tree[f]| :: tree[f][i])
  }

  lemma UniverseClosed(tree: Tree, entries: seq<File>)
    ensures Closed(tree, Universe(tree, entries)) && Lists(entries, Universe(tree, entries))
  {
  }

  /** Every dependency of a reached file is reached or waiting. */
  ghost predicate Pending(tree: Tree, r: set<File>, waiting: seq<File>) {
    forall f, d :: f in r && d in Deps(tree, f) ==> d in r || d in waiting
  }

  /** Nothing reached or waiting lies outside a closed set that contains the entries. */
  ghost predicate Within(tree: Tree, entries: seq<File>, r: set<File>, waiting: seq<File>) {
    forall s :: Lists(entries, s) && Closed(tree, s) ==> r <= s && Lists(waiting, s)
  }

  ghost function Unreached(tree: Tree, entries: seq<File>, r: set<File>): nat { |Universe(tree, entries) - r| }

  lemma AddWithin(tree: Tree, entries: seq<File>, r: set<File>, waiting: seq<File>, dep: File)
    requires Within(tree, entries, r, waiting) && dep in waiting
    ensures Within(tree, entries, r + {dep}, waiting + Deps(tree, dep))
  {
    forall s | Lists(entries, s) && Closed(tree, s) ensures r + {dep} <= s && Lists(waiting + Deps(tree, dep), s) {
      assert dep in s;
      assert Lists(Deps(tree, dep), s);
    }
  }

  lemma AddDecreases(tree: Tree, entries: seq<File>, r: set<File>, waiting: seq<File>, dep: File)
    requires Within(tree, entries, r, waiting) && dep in waiting && dep !in r
    ensures Unreached(tree, entries, r + {dep}) < Unreached(tree, entries, r)
  {
    var u := Universe(tree, entries);
    UniverseClosed(tree, entries);
    assert Lists(waiting, u);
    assert u - (r + {dep}) == (u - r) - {dep};
  }

  /** One level: the files of this level not yet reached are added, and what they depend on
      waits for the next. */
  method Level(tree: Tree, reached: set<File>, current: seq<File>, ghost entries: seq<File>)
    returns (r: set<File>, next: seq<File>)
    requires Pending(tree, reached, current) && Within(tree, entries, reached, current)
    ensures reached <= r && Pending(tree, r, next) && Within(tree, entries, r, next)
    ensures Unreached(tree, entries, r) < Unreached(tree, entries, reached) || (r == reached && next == [])
  {
    r, next := reached, [];
    LevelStarts(tree, entries, reached, current);
    for k := 0 to |current|
      invariant InLevel(tree, entries, reached, r, current, k, next)
    {
      var dep := current[k];
      if dep !in r {
        LevelAdds(tree, entries, reached, r, current, k, next);
        r := r + {dep};
        if dep in tree {
          next := next + tree[dep];
        } else {
          assert next + [] == next;
        }
      } else {
        PendingSkips(tree, r, current, k, next);
      }
    }
    LevelEnds(tree, entries, reached, r, current, next);
  }

  /** Part way through a level: the files before position k have been handled. */
  ghost predicate InLevel(tree: Tree, entries: seq<File>, reached: set<File>, r: set<File>, current: seq<File>,
                          k: nat, next: seq<File>)
    requires k <= |current|
  {
    && reached <= r
    && Pending(tree, r, current[k..] + next) && Within(tree, entries, r, current + next)
    && (Unreached(tree, entries, r) < Unreached(tree, entries, reached) || (r == reached && next == []))
  }

  lemma LevelStarts(tree: Tree, entries: seq<File>, reached: set<File>, current: seq<File>)
    requires Pending(tree, reached, current) && Within(tree, entries, reached, current)
    ensures InLevel(tree, entries, reached, reached, current, 0, [])
  {
    assert current[0..] + [] == current && current + [] == current;
  }

  lemma LevelAdds(tree: Tree, entries: seq<File>, reached: set<File>, r: set<File>, current: seq<File>, k: nat,
                  next: seq<File>)
    requires k < |current| && current[k] !in r && InLevel(tree, entries, reached, r, current, k, next)
    ensures InLevel(tree, entries, reached, r + {current[k]}, current, k + 1, next + Deps(tree, current[k]))
  {
    var dep := current[k];
    assert dep in current + next;
    AddWithin(tree, entries, r, current + next, dep);
    AddDecreases(tree, entries, r, current + next, dep);
    Regroup(current, next, Deps(tree, dep));
    PendingAdds(tree, r, current, k, next);
  }

  lemma LevelEnds(tree: Tree, entries: seq<File>, reached: set<File>, r: set<File>, current: seq<File>, next: seq<File>)
    requires InLevel(tree, entries, reached, r, current, |current|, next)
    ensures Pending(tree, r, next) && Within(tree, entries, r, next)
  {
    assert current[|current|..] + next == next;
    WithinSuffix(tree, entries, r, current, next);
  }

  lemma WithinSuffix(tree: Tree, entries: seq<File>, r: set<File>, a: seq<File>, b: seq<File>)
    requires Within(tree, entries, r, a + b)
    ensures Within(tree, entries, r, b)
  {
    forall s | Lists(entries, s) && Closed(tree, s) ensures r <= s && Lists(b, s) {
      assert Lists(a + b, s) && forall i :: 0 <= i < |b| ==> b[i] == (a + b)[|a| + i];
    }
  }

  lemma PendingAdds(tree: Tree, r: set<File>, current: seq<File>, k: nat, next: seq<File>)
    requires k < |current| && Pending(tree, r, current[k..] + next)
    ensures Pending(tree, r + {current[k]}, current[k + 1..] + (next + Deps(tree, current[k])))
  {
    assert current[k..] == [current[k]] + current[k + 1..];
  }

  lemma PendingSkips(tree: Tree, r: set<File>, current: seq<File>, k: nat, next: seq<File>)
    requires k < |current| && Pending(tree, r, current[k..] + next) && current[k] in r
    ensures Pending(tree, r, current[k + 1..] + next)
  {
    assert current[k..] == [current[k]] + current[k + 1..];
  }

  /** All levels below one entry file. */
  method Levels(tree: Tree, reached: set<File>, entry: File, ghost entries: seq<File>) returns (r: set<File>)
    requires entry in entries && Pending(tree, reached, []) && Within(tree, entries, reached, [])
    ensures reached <= r && entry in r && Pending(tree, r, []) && Within(tree, entries, r, [])
  {
    r := reached + {entry};
    var current: seq<File> := [];
    if entry in tree { current := tree[entry]; }
    StartLevels(tree, reached, entry, entries);
    while current != []
      invariant reached <= r && entry in r
      invariant Pending(tree, r, current) && Within(tree, entries, r, current)
      decreases Unreached(tree, entries, r), |current|
    {
      r, current := Level(tree, r, current, entries);
    }
  }

  lemma StartLevels(tree: Tree, reached: set<File>, entry: File, entries: seq<File>)
    requires entry in entries && Pending(tree, reached, []) && Within(tree, entries, reached, [])
    ensures Pending(tree, reached + {entry}, Deps(tree, entry))
    ensures Within(tree, entries, reached + {entry}, Deps(tree, entry))
  {
    forall s | Lists(entries, s) && Closed(tree, s) ensures reached + {entry} <= s && Lists(Deps(tree, entry), s) {
      assert entry in s;
    }
  }

  /** The reachable set is exact, for every dependency map, cycles included. */
  method ReachableFrom(tree: Tree, entries: seq<File>) returns (r: set<File>)
    ensures Least(tree, entries, r)
  {
    r := {};
    for k := 0 to |entries|
      invariant Lists(entries[..k], r) && Pending(tree, r, []) && Within(tree, entries, r, [])
    {
      r := Levels(tree, r, entries[k], entries);
    }
    assert entries[..|entries|] == entries;
  }
}
