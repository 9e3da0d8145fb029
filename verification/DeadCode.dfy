/** From the entry classes to the pruned sources: the entry files, the reachable set, and
    what happens to each source file. */
module DeadCode {
  import opened Pruner
  import TextLines

  /** The arguments of `BuildReachableFileSet`.  `basename` and `withoutExt` are
      `os.path.basename` and the first half of `os.path.splitext`; `archives` lists the
      source files of each archive, and is empty when no mapping is given. */
  datatype Input = Input(entryClasses: string, tree: Tree, header: map<string, File>,
                         archives: seq<seq<File>>, basename: File -> File, withoutExt: File -> File)

  datatype Outcome = Reached(files: set<File>) | MissingClass(name: string)

  // ---------------------------------------------------------------- entry files

  function PackageInfo(): File { "package-info" }

  predicate EndsWith(f: File, suffix: File) { |suffix| <= |f| && f[|f| - |suffix|..] == suffix }

  /** Two files of one archive share a base name. */
  predicate Shares(files: seq<File>, basename: File -> File, i: nat, j: nat) {
    i < |files| && j < |files| && i != j && basename(files[i]) == basename(files[j])
  }

  ghost predicate Duplicated(files: seq<File>, basename: File -> File, withoutExt: File -> File, f: File) {
    exists i: nat, j: nat :: Shares(files, basename, i, j) && withoutExt(files[i]) == f
  }

  function Classes(x: Input): seq<string> { TextLines.Split(x.entryClasses, ',') }

  ghost predicate ClassFile(x: Input, f: File) {
    exists k :: 0 <= k < |Classes(x)| && Classes(x)[k] in x.header && x.header[Classes(x)[k]] == f
  }

  ghost predicate DuplicatedFile(x: Input, f: File) {
    exists a :: 0 <= a < |x.archives| && Duplicated(x.archives[a], x.basename, x.withoutExt, f)
  }

  /** The files that must be kept whatever depends on them. */
  ghost predicate IsEntry(x: Input, f: File) {
    ClassFile(x, f) || DuplicatedFile(x, f) || (f in x.tree && EndsWith(f, PackageInfo()))
  }

  // ---------------------------------------------------------------- duplicated base names

  /** The files with base name b, without their extensions, in order. */
  ghost function Group(files: seq<File>, b: File, basename: File -> File, withoutExt: File -> File): seq<File> {
    if files == [] then []
    else
      var init, last := files[..|files| - 1], files[|files| - 1];
      Group(init, b, basename, withoutExt) + if basename(last) == b then [withoutExt(last)] else []
  }

  predicate Member(files: seq<File>, b: File, basename: File -> File, i: nat) { i < |files| && basename(files[i]) == b }

  lemma {:induction false} GroupMember(files: seq<File>, b: File, basename: File -> File, withoutExt: File -> File,
                                       i: nat)
    requires Member(files, b, basename, i)
    ensures withoutExt(files[i]) in Group(files, b, basename, withoutExt)
  {
    if i < |files| - 1 { GroupMember(files[..|files| - 1], b, basename, withoutExt, i); }
  }

  lemma {:induction false} GroupPair(files: seq<File>, b: File, basename: File -> File, withoutExt: File -> File,
                                     i: nat, j: nat)
    requires i < j && Member(files, b, basename, i) && Member(files, b, basename, j)
    ensures |Group(files, b, basename, withoutExt)| > 1
  {
    if j < |files| - 1 {
      GroupPair(files[..|files| - 1], b, basename, withoutExt, i, j);
    } else {
      GroupMember(files[..|files| - 1], b, basename, withoutExt, i);
    }
  }

  lemma {:induction false} GroupFrom(files: seq<File>, b: File, basename: File -> File, withoutExt: File -> File,
                                     f: File)
    returns (i: nat)
    requires f in Group(files, b, basename, withoutExt)
    ensures Member(files, b, basename, i) && withoutExt(files[i]) == f
  {
    var n := |files| - 1;
    if basename(files[n]) == b && withoutExt(files[n]) == f { return n; }
    i := GroupFrom(files[..n], b, basename, withoutExt, f);
  }

  /** A group of more than one has, beside any member, another. */
  lemma {:induction false} GroupOther(files: seq<File>, b: File, basename: File -> File, withoutExt: File -> File,
                                      i: nat)
    returns (j: nat)
    requires |Group(files, b, basename, withoutExt)| > 1 && Member(files, b, basename, i)
    ensures Member(files, b, basename, j) && j != i
  {
    var n := |files| - 1;
    var g := Group(files[..n], b, basename, withoutExt);
    if basename(files[n]) != b {
      j := GroupOther(files[..n], b, basename, withoutExt, i);
    } else if i != n {
      j := n;
    } else {
      j := GroupFrom(files[..n], b, basename, withoutExt, g[0]);
    }
  }

  /** Groups of more than one hold exactly the duplicated files. */
  lemma GroupsAreDuplicated(files: seq<File>, basename: File -> File, withoutExt: File -> File, f: File)
    ensures Duplicated(files, basename, withoutExt, f) <==>
            exists b :: Crowded(files, basename, withoutExt, b) && f in Group(files, b, basename, withoutExt)
  {
    if Duplicated(files, basename, withoutExt, f) {
      var i: nat, j: nat :| Shares(files, basename, i, j) && withoutExt(files[i]) == f;
      var b := basename(files[i]);
      GroupMember(files, b, basename, withoutExt, i);
      if i < j {
        GroupPair(files, b, basename, withoutExt, i, j);
      } else {
        GroupPair(files, b, basename, withoutExt, j, i);
      }
    }
    if b :| Crowded(files, basename, withoutExt, b) && f in Group(files, b, basename, withoutExt) {
      var i := GroupFrom(files, b, basename, withoutExt, f);
      var j := GroupOther(files, b, basename, withoutExt, i);
      assert Shares(files, basename, i, j);
    }
  }

  ghost predicate Crowded(files: seq<File>, basename: File -> File, withoutExt: File -> File, b: File) {
    |Group(files, b, basename, withoutExt)| > 1
  }

  type Groups = map<File, seq<File>>

  ghost predicate Grouped(groups: Groups, files: seq<File>, basename: File -> File, withoutExt: File -> File) {
    forall b :: Group(files, b, basename, withoutExt) == if b in groups then groups[b] else []
  }

  lemma GroupedSnoc(groups: Groups, files: seq<File>, last: File, basename: File -> File, withoutExt: File -> File)
    requires Grouped(groups, files, basename, withoutExt)
    ensures var b := basename(last);
            var was := if b in groups then groups[b] else [];
            Grouped(groups[b := was + [withoutExt(last)]], files + [last], basename, withoutExt)
  {
    assert (files + [last])[..|files|] == files;
    assert forall b :: Group(files, b, basename, withoutExt) + [] == Group(files, b, basename, withoutExt);
  }

  /** The first loop over one archive: its files by base name. */
  method GroupByBasename(files: seq<File>, basename: File -> File, withoutExt: File -> File) returns (groups: Groups)
    ensures Grouped(groups, files, basename, withoutExt)
  {
    groups := map[];
    for k := 0 to |files|
      invariant Grouped(groups, files[..k], basename, withoutExt)
    {
      GroupedSnoc(groups, files[..k], files[k], basename, withoutExt);
      assert files[..k + 1] == files[..k] + [files[k]];
      var b := basename(files[k]);
      if b in groups {
        groups := groups[b := groups[b] + [withoutExt(files[k])]];
      } else {
        groups := groups[b := [withoutExt(files[k])]];
      }
    }
    assert files[..|files|] == files;
  }

  predicate InCrowd(groups: Groups, b: File, f: File) { b in groups && |groups[b]| > 1 && f in groups[b] }

  /** The second loop: the groups of more than one, in whatever order the dictionary gives. */
  method CrowdedFiles(groups: Groups) returns (r: seq<File>)
    ensures forall f :: f in r <==> exists b :: InCrowd(groups, b, f)
  {
    r := [];
    var left := groups.Keys;
    while left != {}
      invariant left <= groups.Keys
      invariant forall f :: f in r <==> exists b :: b !in left && InCrowd(groups, b, f)
    {
      var b :| b in left;
      ghost var before := r;
      if |groups[b]| > 1 { r := r + groups[b]; }
      forall f ensures f in r <==> exists c :: c !in left - {b} && InCrowd(groups, c, f) {
        assert f in r <==> f in before || InCrowd(groups, b, f);
      }
      left := left - {b};
    }
  }

  /** `_DuplicatedFiles`. */
  method DuplicatedFiles(archives: seq<seq<File>>, basename: File -> File, withoutExt: File -> File)
    returns (r: seq<File>)
    ensures forall f :: f in r <==> exists a :: 0 <= a < |archives| && Duplicated(archives[a], basename, withoutExt, f)
  {
    r := [];
    for k := 0 to |archives|
      invariant forall f :: f in r <==> exists a :: 0 <= a < k && Duplicated(archives[a], basename, withoutExt, f)
    {
      var groups := GroupByBasename(archives[k], basename, withoutExt);
      var more := CrowdedFiles(groups);
      forall f ensures f in more <==> Duplicated(archives[k], basename, withoutExt, f) {
        CrowdIsDuplicated(groups, archives[k], basename, withoutExt, f);
      }
      r := r + more;
    }
  }

  lemma CrowdIsDuplicated(groups: Groups, files: seq<File>, basename: File -> File, withoutExt: File -> File, f: File)
    requires Grouped(groups, files, basename, withoutExt)
    ensures (exists b :: InCrowd(groups, b, f)) <==> Duplicated(files, basename, withoutExt, f)
  {
    GroupsAreDuplicated(files, basename, withoutExt, f);
    forall b ensures InCrowd(groups, b, f) <==>
                     Crowded(files, basename, withoutExt, b) && f in Group(files, b, basename, withoutExt) {
    }
  }

  // ---------------------------------------------------------------- the reachable set

  /** The least set that holds the entry files and is closed under dependencies. */
  ghost predicate Exact(x: Input, r: set<File>) {
    Holds(x, r) && Closed(x.tree, r) && forall s :: Holds(x, s) && Closed(x.tree, s) ==> r <= s
  }

  ghost predicate Holds(x: Input, s: set<File>) { forall f :: IsEntry(x, f) ==> f in s }

  ghost predicate AllEntries(x: Input, entries: seq<File>) { forall f :: f in entries <==> IsEntry(x, f) }

  lemma LeastIsExact(x: Input, entries: seq<File>, r: set<File>)
    requires AllEntries(x, entries) && Least(x.tree, entries, r)
    ensures Exact(x, r)
  {
    forall s ensures Holds(x, s) <==> Lists(entries, s) { HoldsIsLists(x, entries, s); }
  }

  lemma HoldsIsLists(x: Input, entries: seq<File>, s: set<File>)
    requires AllEntries(x, entries)
    ensures Holds(x, s) <==> Lists(entries, s)
  {
    if Lists(entries, s) {
      forall f | IsEntry(x, f) ensures f in s { assert f in entries; }
    }
    if Holds(x, s) {
      forall i | 0 <= i < |entries| ensures entries[i] in s { assert IsEntry(x, entries[i]); }
    }
  }

  /** A chain of dependencies leads from an entry file to f. */
  ghost predicate Needed(x: Input, f: File) { exists path :: NeededBy(x, path, f) }

  ghost predicate NeededBy(x: Input, path: seq<File>, f: File) {
    Chain(x.tree, path) && IsEntry(x, path[0]) && path[|path| - 1] == f
  }

  lemma ReachedIsNeeded(x: Input, entries: seq<File>, r: set<File>, f: File)
    requires AllEntries(x, entries) && Least(x.tree, entries, r)
    ensures f in r <==> Needed(x, f)
  {
    LeastIsChained(x.tree, entries, r, f);
    if path :| Leads(x.tree, entries, path, f) { assert NeededBy(x, path, f); }
    if path :| NeededBy(x, path, f) { assert Leads(x.tree, entries, path, f); }
  }

  /** The files of the entry classes; the first class that was not translated is an error. */
  method ClassFiles(x: Input) returns (missing: bool, name: string, files: seq<File>)
    ensures missing <==> exists k :: 0 <= k < |Classes(x)| && Classes(x)[k] !in x.header
    ensures missing ==> name in Classes(x) && name !in x.header
    ensures !missing ==> forall f :: f in files <==> ClassFile(x, f)
  {
    var classes := Classes(x);
    files := [];
    for k := 0 to |classes|
      invariant forall i :: 0 <= i < k ==> classes[i] in x.header
      invariant forall f :: f in files <==>
                            exists i :: 0 <= i < k && classes[i] in x.header && x.header[classes[i]] == f
    {
      if classes[k] !in x.header { return true, classes[k], []; }
      files := files + [x.header[classes[k]]];
    }
    return false, [], files;
  }

  method PackageInfoFiles(tree: Tree) returns (files: seq<File>)
    ensures forall f :: f in files <==> f in tree && EndsWith(f, PackageInfo())
  {
    files := [];
    var left := tree.Keys;
    while left != {}
      invariant left <= tree.Keys
      invariant forall f :: f in files <==> f in tree && f !in left && EndsWith(f, PackageInfo())
    {
      var f :| f in left;
      if EndsWith(f, PackageInfo()) { files := files + [f]; }
      left := left - {f};
    }
  }

  /** `BuildReachableFileSet`. */
  method BuildReachableFileSet(x: Input) returns (r: Outcome)
    ensures r.MissingClass? <==> exists k :: 0 <= k < |Classes(x)| && Classes(x)[k] !in x.header
    ensures r.MissingClass? ==> r.name in Classes(x) && r.name !in x.header
    ensures r.Reached? ==> Exact(x, r.files)
    ensures r.Reached? ==> forall f :: f in r.files <==> Needed(x, f)
  {
    var missing, name, files := ClassFiles(x);
    if missing { return MissingClass(name); }
    var duplicated := DuplicatedFiles(x.archives, x.basename, x.withoutExt);
    var infos := PackageInfoFiles(x.tree);
    var entries := files + duplicated + infos;
    forall f ensures f in entries <==> IsEntry(x, f) {
      assert f in entries <==> f in files || f in duplicated || f in infos;
    }
    var reached := ReachableFrom(x.tree, entries);
    LeastIsExact(x, entries, reached);
    forall f ensures f in reached <==> Needed(x, f) { ReachedIsNeeded(x, entries, reached, f); }
    r := Reached(reached);
  }

  // ---------------------------------------------------------------- pruning

  datatype Source = Copied | Emptied

  /** `_PruneFile` on every input; `nameOf` drops the extension and the leading directory. */
  method PruneFiles(inputs: seq<File>, reachable: set<File>, nameOf: File -> File) returns (outputs: seq<Source>)
    ensures |outputs| == |inputs|
    ensures forall i :: 0 <= i < |inputs| ==> (outputs[i] == Copied <==> nameOf(inputs[i]) in reachable)
  {
    outputs := [];
    for k := 0 to |inputs|
      invariant |outputs| == k
      invariant forall i :: 0 <= i < k ==> (outputs[i] == Copied <==> nameOf(inputs[i]) in reachable)
    {
      outputs := outputs + [if nameOf(inputs[k]) in reachable then Copied else Emptied];
    }
  }

  /** `PruneSourceFiles`: entry files are copied, no copied file depends on an emptied one,
      and a file is emptied only if no chain of dependencies leads to it from an entry. */
  method PruneSourceFiles(x: Input, inputs: seq<File>, nameOf: File -> File) returns (r: Outcome, outputs: seq<Source>)
    ensures r.Reached? ==> |outputs| == |inputs|
    ensures r.Reached? ==> forall i :: 0 <= i < |inputs| && IsEntry(x, nameOf(inputs[i])) ==> outputs[i] == Copied
    ensures r.Reached? ==>
              forall i, j | 0 <= i < |inputs| && 0 <= j < |inputs| ::
                (outputs[i] == Copied && nameOf(inputs[j]) in Deps(x.tree, nameOf(inputs[i])) ==> outputs[j] == Copied)
    ensures r.Reached? ==> forall i :: 0 <= i < |inputs| ==>
              (outputs[i] == Copied <==> Needed(x, nameOf(inputs[i])))
  {
    r := BuildReachableFileSet(x);
    if r.MissingClass? { return r, []; }
    outputs := PruneFiles(inputs, r.files, nameOf);
    forall i, j | 0 <= i < |inputs| && 0 <= j < |inputs| && outputs[i] == Copied
                  && nameOf(inputs[j]) in Deps(x.tree, nameOf(inputs[i]))
      ensures outputs[j] == Copied
    {
      assert Lists(Deps(x.tree, nameOf(inputs[i])), r.files);
    }
  }
}
