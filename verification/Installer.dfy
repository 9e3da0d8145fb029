/** The three directories the installer keeps in sync, their manifests, and the commands
    it issues for each of them. */
module Installer {
  import opened Basics
  import opened TextLines
  import opened DexManifest
  import opened DeviceSync

  // ---------------------------------------------------------------- manifests as indexes

  /** The dex manifest lists an install path and a checksum on every line. */
  function DexIndex(text: string): Index {
    match SumsListed(text)
    case None => Unreadable
    case Some(entries) => Index(entries)
  }

  /** The native manifest has lines "name checksum"; empty lines are skipped and any other
      number of fields raises an exception. */
  function NativeLines(lines: seq<string>): Index {
    if lines == [] then Index(map[])
    else
      var init, line := NativeLines(lines[..|lines| - 1]), lines[|lines| - 1];
      if init.Unreadable? || line == "" then init
      else
        var f := Split(line, ' ');
        if |f| == 2 then Index(init.entries[f[0] := f[1]]) else Unreadable
  }

  function NativeIndex(text: string): Index { NativeLines(Split(text, '\n')) }

  function NativeLine(item: (string, string)): string { item.0 + [' '] + item.1 }

  function NativeLinesOf(items: seq<(string, string)>): seq<string> {
    seq(|items|, i requires 0 <= i < |items| => NativeLine(items[i]))
  }

  function NativeText(items: seq<(string, string)>): string { Join(NativeLinesOf(items), '\n') }

  /** A dictionary as the list of its items in insertion order. */
  function MapOf(items: seq<(string, string)>): Files {
    if items == [] then map[] else MapOf(items[..|items| - 1])[items[|items| - 1].0 := items[|items| - 1].1]
  }

  const DEX := Store("manifest", DexIndex, false, true, {})
  const NATIVE := Store("native_manifest", NativeIndex, true, true, {})
  const RESOURCES :=
    Store("resources_checksum", (text: string) => Index(map["resources.ap_" := text]), true, false, {"resources.ap_"})

  // ---------------------------------------------------------------- the native manifest

  predicate Clean(s: string) { ' ' !in s && '\n' !in s }

  lemma {:induction false} NativeLinesRead(lines: seq<string>, items: seq<(string, string)>)
    requires |lines| == |items| && forall i :: 0 <= i < |items| ==> lines[i] == NativeLine(items[i])
    requires forall i :: 0 <= i < |items| ==> Clean(items[i].0) && Clean(items[i].1)
    ensures NativeLines(lines) == Index(MapOf(items))
  {
    if items != [] {
      var n := |items| - 1;
      NativeLinesRead(lines[..n], items[..n]);
      SplitFirst(items[n].0, ' ', items[n].1);
      SplitWhole(items[n].1, ' ');
    }
  }

  /** Whatever a native manifest lists, it lists under names without spaces or newlines. */
  lemma {:induction false} NativeNamesClean(lines: seq<string>, name: string)
    requires forall i :: 0 <= i < |lines| ==> '\n' !in lines[i]
    ensures var r := NativeLines(lines); r.Index? && name in r.entries ==> Clean(name)
  {
    if lines != [] {
      var line := lines[|lines| - 1];
      NativeNamesClean(lines[..|lines| - 1], name);
      SplitPieces(line, ' ', '\n');
    }
  }

  lemma {:induction false} MapOfKeys(items: seq<(string, string)>, i: nat)
    requires i < |items|
    ensures items[i].0 in MapOf(items)
  {
    if i < |items| - 1 { MapOfKeys(items[..|items| - 1], i); }
  }

  /** Exactly when the native manifest says what was installed: when no library's base name
      contains a space or a newline. */
  lemma NativeManifestIff(items: seq<(string, string)>)
    requires forall i :: 0 <= i < |items| ==> Clean(items[i].1)
    ensures NativeIndex(NativeText(items)) == Index(MapOf(items)) <==>
            forall i :: 0 <= i < |items| ==> Clean(items[i].0)
  {
    var lines := NativeLinesOf(items);
    if forall i :: 0 <= i < |items| ==> Clean(items[i].0) {
      NativeLinesRead(lines, items);
      if items == [] {
        assert NativeLines([""]) == NativeLines([""][..0]);
      } else {
        SplitJoin(lines, '\n');
      }
    } else if NativeIndex(NativeText(items)) == Index(MapOf(items)) {
      forall i | 0 <= i < |items| ensures Clean(items[i].0) {
        MapOfKeys(items, i);
        NativeNamesClean(Split(NativeText(items), '\n'), items[i].0);
      }
      assert false;
    }
  }

  /** A library called "a b" makes a line of three fields. */
  lemma SpaceInNameIsLost()
    ensures NativeIndex(NativeText([("a b", "c")])) != Index(MapOf([("a b", "c")]))
  {
    var items := [("a b", "c")];
    assert items[0].0[1] == ' ' && !Clean(items[0].0);
    assert Clean(items[0].1);
    NativeManifestIff(items);
  }

  ghost predicate DistinctNames(items: seq<(string, string)>) {
    forall i, j :: 0 <= i < j < |items| ==> items[i].0 != items[j].0
  }

  predicate CleanItems(items: seq<(string, string)>) {
    forall i :: 0 <= i < |items| ==> Clean(items[i].0) && Clean(items[i].1)
  }

  lemma {:induction false} MapOfFrom(items: seq<(string, string)>, name: string)
    ensures name in MapOf(items) ==> exists i :: 0 <= i < |items| && items[i].0 == name
  {
    if items != [] {
      MapOfFrom(items[..|items| - 1], name);
    }
  }

  lemma {:induction false} MapOfSize(items: seq<(string, string)>)
    requires DistinctNames(items)
    ensures |MapOf(items)| == |items|
  {
    if items != [] {
      var init, last := items[..|items| - 1], items[|items| - 1];
      MapOfSize(init);
      MapOfFrom(init, last.0);
    }
  }

  /** The beginning of a line that has both fields has the name of the whole one, but perhaps
      not the whole checksum. */
  lemma NativePieceFields(item: (string, string), piece: string) returns (sum: string)
    requires Clean(item.0) && Clean(item.1) && piece <= NativeLine(item) && |Split(piece, ' ')| == 2
    ensures sum <= item.1 && Split(piece, ' ') == [item.0, sum] && (sum == item.1 ==> piece == NativeLine(item))
  {
    var parts := [item.0, item.1];
    assert parts[1..] == [item.1];
    var k, last := SplitPrefix(parts, ' ', piece);
    assert k == 1;
    sum := last;
  }

  /** A native manifest cut off anywhere lists something else. */
  lemma NativePrefixIff(items: seq<(string, string)>, p: string)
    requires items != [] && CleanItems(items) && DistinctNames(items) && p <= NativeText(items)
    ensures NativeIndex(p) == Index(MapOf(items)) <==> p == NativeText(items)
  {
    NativeManifestIff(items);
    if NativeIndex(p) == Index(MapOf(items)) {
      var lines := NativeLinesOf(items);
      forall i | 0 <= i < |lines| ensures '\n' !in lines[i] { assert Clean(items[i].0) && Clean(items[i].1); }
      var k, piece := SplitPrefix(lines, '\n', p);
      assert lines[..k] == NativeLinesOf(items[..k]);
      NativeLinesRead(lines[..k], items[..k]);
      assert (lines[..k] + [piece])[..k] == lines[..k];
      NativeCut(items, k, piece);
    }
  }

  lemma NativeCut(items: seq<(string, string)>, k: nat, piece: string)
    requires k < |items| && CleanItems(items) && DistinctNames(items) && piece <= NativeLine(items[k])
    requires var f := Split(piece, ' ');
             Index(MapOf(items)) == if piece == "" then Index(MapOf(items[..k]))
                                    else if |f| == 2 then Index(MapOf(items[..k])[f[0] := f[1]]) else Unreadable
    ensures k == |items| - 1 && piece == NativeLine(items[k])
  {
    MapOfSize(items);
    MapOfSize(items[..k]);
    var f := Split(piece, ' ');
    assert piece != "" && |f| == 2;
    LastName(items, k, f[0], f[1]);
    var sum := NativePieceFields(items[k], piece);
    assert sum == f[1];
  }

  /** Only the last name can complete the map. */
  lemma LastName(items: seq<(string, string)>, k: nat, name: string, checksum: string)
    requires k < |items| && DistinctNames(items) && MapOf(items) == MapOf(items[..k])[name := checksum]
    ensures k == |items| - 1 && checksum == items[k].1
  {
    MapOfSize(items);
    MapOfSize(items[..k]);
    assert k == |items| - 1;
    MapOfFrom(items[..k], items[k].0);
    assert MapOf(items)[items[k].0] == items[k].1;
  }

  // ---------------------------------------------------------------- valid jobs

  lemma EmptyTextRaises()
    ensures ParseText("").Raises?
  {
    var each := ParseEach(Split("", '\n'));
    assert Split("", '\n') == [""];
    assert each[0] == ParseLine("");
    SplitWhole("", ' ');
    assert Strip("", IsSpace) == "";
    assert each[0] == [];
  }

  /** Any text that parses is a valid dex manifest, unless it would install a file over itself. */
  lemma DexTextValid(text: string, full: bool)
    requires ParseText(text).Entries? && "manifest" !in ParseText(text).entries
    ensures DexIndex(text).Index? && ValidJob(DEX, Job(DexIndex(text).entries, text, full))
  {
    if text == "" {
      EmptyTextRaises();
    }
    var p := ParseText(text);
    var each := ParseEach(Split(text, '\n'));
    assert each != [] && each[|each| - 1] != [];
    var last: Entry := each[|each| - 1][0];
    assert last.installPath in p.entries;
    assert last.installPath in DexIndex(text).entries;
  }

  /** What the manifest builder writes for any non-empty list of dexes that comes back is a
      valid job. */
  lemma DexJobValid(dexes: seq<Dex>, full: bool)
    requires dexes != [] && PlainDexes(Distinct(dexes))
    ensures var text := Join(Lines(Distinct(dexes)), '\n');
            DexIndex(text).Index? && ValidJob(DEX, Job(DexIndex(text).entries, text, full))
  {
    ManifestRoundTripIff(dexes);
    DexTextValid(Join(Lines(Distinct(dexes)), '\n'), full);
  }

  /** The native manifest of one library: its name and its checksum. */
  lemma OneLibraryText(name: string, checksum: string)
    ensures NativeText([(name, checksum)]) == name + " " + checksum
  {
    assert NativeLinesOf([(name, checksum)]) == [NativeLine((name, checksum))];
  }

  lemma NativeJobValid(items: seq<(string, string)>, full: bool)
    requires forall i :: 0 <= i < |items| ==> Clean(items[i].0) && Clean(items[i].1)
    requires "native_manifest" !in MapOf(items)
    ensures ValidJob(NATIVE, Job(MapOf(items), NativeText(items), full))
  {
    NativeManifestIff(items);
  }

  lemma ResourceJobValid(checksum: string)
    ensures ValidJob(RESOURCES, Job(map["resources.ap_" := checksum], checksum, false))
  {
  }

  // ---------------------------------------------------------------- a manifest cut off in its push

  /** With part of the dex manifest on the device, the directory is consistent exactly when
      nothing or all of it arrived. */
  lemma TornDexManifestIff(es: seq<Entry>, full: bool, part: string)
    requires es != [] && PlainEntries(es) && DistinctPaths(es) && "manifest" !in PathsOf(es)
    requires part <= Join(LinesOf(es), '\n')
    ensures var text := Join(LinesOf(es), '\n');
            SumsListed(text).Some? &&
            (Consistent(DEX, SumsListed(text).value[DEX.manifest := part]) <==> part == "" || part == text)
  {
    var text := Join(LinesOf(es), '\n');
    LinesRoundTrip(es);
    PrefixListsIff(es, part);
    DexTextValid(text, full);
    InterruptedCommitIff(DEX, Job(DexIndex(text).entries, text, full), part);
  }

  /** With part of the native manifest, exactly when all of it arrived. */
  lemma TornNativeManifestIff(items: seq<(string, string)>, full: bool, part: string)
    requires items != [] && CleanItems(items) && DistinctNames(items) && "native_manifest" !in MapOf(items)
    requires part <= NativeText(items)
    ensures Consistent(NATIVE, MapOf(items)[NATIVE.manifest := part]) <==> part == NativeText(items)
  {
    NativePrefixIff(items, part);
    NativeJobValid(items, full);
    InterruptedCommitIff(NATIVE, Job(MapOf(items), NativeText(items), full), part);
  }

  /** The empty text in place of a manifest that lists one library. */
  lemma EmptyNativeManifestIsInconsistent()
    ensures !Consistent(NATIVE, MapOf([("a", "c")])[NATIVE.manifest := ""])
  {
    var items := [("a", "c")];
    assert Clean("a") && Clean("c");
    assert MapOf(items[..0]) == map[] && "native_manifest" !in MapOf(items);
    assert NativeLine(items[0]) != "" && NativeLinesOf(items) == [NativeLine(items[0])];
    TornNativeManifestIff(items, false, "");
  }

  /** The first letter of a manifest that lists one dex. */
  lemma TornDexManifestIsInconsistent()
    ensures var text := Join(LinesOf([Entry("a", "-", "x", "c")]), '\n');
            SumsListed(text).Some? && "a" <= text && !Consistent(DEX, SumsListed(text).value[DEX.manifest := "a"])
  {
    var e := Entry("a", "-", "x", "c");
    OneEntryPlain();
    assert LinesOf([e]) == [Line(e)] && Line(e)[0] == 'a' && |Line(e)| > 1;
    assert Line(e)[..1] == "a";
    TornDexManifestIff([e], false, "a");
  }

  /** With any text in place of the resource checksum, exactly when it is the checksum. */
  lemma TornChecksumIff(checksum: string, text: string)
    ensures Consistent(RESOURCES, map["resources.ap_" := checksum][RESOURCES.manifest := text]) <==> text == checksum
  {
    var target := map["resources.ap_" := checksum];
    ResourceJobValid(checksum);
    InterruptedCommitIff(RESOURCES, Job(target, checksum, false), text);
    assert map["resources.ap_" := text] == target <==> text == checksum by {
      assert map["resources.ap_" := text]["resources.ap_"] == text;
    }
  }

  /** All checksums have the same length. */
  ghost predicate SumLength(m: Files, len: nat) { forall n :: n in m ==> |m[n]| == len }

  /** A dex manifest cut off in its push can be trusted where it can be read. */
  lemma TornDexTrusted(es: seq<Entry>, part: string, target: Files, len: nat)
    requires es != [] && PlainEntries(es) && DistinctPaths(es) && part <= Join(LinesOf(es), '\n')
    requires SumLength(Sums(Table(es)), len) && SumLength(target, len)
    ensures DexIndex(part).Index? ==> Trusted(DexIndex(part).entries, Sums(Table(es)), target)
  {
    var k, e := PrefixLists(es, part);
    TableLooksUp(es, k);
    if DexIndex(part).Index? {
      var was := DexIndex(part).entries;
      forall n | n in was && n in target && was[n] == target[n]
        ensures n in Sums(Table(es)) && Sums(Table(es))[n] == target[n]
      {
        if n == e.installPath {
          assert |e.checksum| == len && Sums(Table(es))[n] == es[k].checksum;
        } else {
          TablePrefix(es, k, n);
        }
      }
    }
  }

  /** A run from a directory with a torn dex manifest: it fails, or it leaves the build together
      with exactly the files that the torn manifest does not list and the build does not
      have. */
  lemma {:induction false} AfterTornDexManifest(es: seq<Entry>, part: string, job: Job, len: nat, acts: seq<Act>)
    requires es != [] && PlainEntries(es) && DistinctPaths(es) && "manifest" !in PathsOf(es)
    requires part <= Join(LinesOf(es), '\n') && part != ""
    requires SumLength(Sums(Table(es)), len) && SumLength(job.target, len) && "manifest" !in job.target && !job.full
    requires acts != [] && acts[0] == Fetch(true)
    requires IsRun(DEX, job, Run(Sums(Table(es))["manifest" := part], Begin), acts)
    ensures var end := After(DEX, job, Run(Sums(Table(es))["manifest" := part], Begin), acts);
            match DexIndex(part)
            case Unreadable => end.phase == Failed
            case Index(was) =>
              end.phase == Done ==> Contents(DEX, end.d) == Strays(was, Sums(Table(es)), job.target) + job.target
  {
    var d := Sums(Table(es))["manifest" := part];
    TableKeys(es);
    assert Contents(DEX, d) == Sums(Table(es));
    TornDexTrusted(es, part, job.target, len);
    TornOutcome(DEX, job, d, acts);
  }

  /** What a native manifest cut off anywhere lists. */
  lemma NativePrefixLists(items: seq<(string, string)>, p: string) returns (k: nat, sum: string)
    requires items != [] && CleanItems(items) && p <= NativeText(items)
    ensures k < |items| && sum <= items[k].1
    ensures NativeIndex(p) in {Unreadable, Index(MapOf(items[..k])), Index(MapOf(items[..k])[items[k].0 := sum])}
  {
    var lines := NativeLinesOf(items);
    forall i | 0 <= i < |lines| ensures '\n' !in lines[i] { assert Clean(items[i].0) && Clean(items[i].1); }
    var piece;
    k, piece := SplitPrefix(lines, '\n', p);
    assert lines[..k] == NativeLinesOf(items[..k]);
    NativeLinesRead(lines[..k], items[..k]);
    assert (lines[..k] + [piece])[..k] == lines[..k];
    sum := "";
    if |Split(piece, ' ')| == 2 { sum := NativePieceFields(items[k], piece); }
  }

  lemma {:induction false} MapOfPrefix(items: seq<(string, string)>, k: nat, name: string)
    requires k <= |items| && DistinctNames(items) && name in MapOf(items[..k])
    ensures name in MapOf(items) && MapOf(items)[name] == MapOf(items[..k])[name]
  {
    if k < |items| {
      var init := items[..|items| - 1];
      assert init[..k] == items[..k];
      MapOfPrefix(init, k, name);
      MapOfFrom(init, name);
    } else {
      assert items[..k] == items;
    }
  }

  lemma {:induction false} MapOfAt(items: seq<(string, string)>, k: nat)
    requires k < |items| && DistinctNames(items)
    ensures items[k].0 in MapOf(items) && MapOf(items)[items[k].0] == items[k].1
  {
    if k < |items| - 1 { MapOfAt(items[..|items| - 1], k); }
  }

  lemma TornNativeTrusted(items: seq<(string, string)>, part: string, target: Files, len: nat)
    requires items != [] && CleanItems(items) && DistinctNames(items) && part <= NativeText(items)
    requires SumLength(MapOf(items), len) && SumLength(target, len)
    ensures NativeIndex(part).Index? ==> Trusted(NativeIndex(part).entries, MapOf(items), target)
  {
    var k, sum := NativePrefixLists(items, part);
    MapOfAt(items, k);
    if NativeIndex(part).Index? {
      var was := NativeIndex(part).entries;
      forall n | n in was && n in target && was[n] == target[n]
        ensures n in MapOf(items) && MapOf(items)[n] == target[n]
      {
        if n in MapOf(items[..k]) && was[n] == MapOf(items[..k])[n] {
          MapOfPrefix(items, k, n);
        } else {
          assert n == items[k].0 && was[n] == sum && |sum| == len;
        }
      }
    }
  }

  /** Likewise for a torn native manifest. */
  lemma {:induction false} AfterTornNativeManifest(items: seq<(string, string)>, part: string, job: Job, len: nat,
                                                   acts: seq<Act>)
    requires items != [] && CleanItems(items) && DistinctNames(items) && "native_manifest" !in MapOf(items)
    requires part <= NativeText(items)
    requires SumLength(MapOf(items), len) && SumLength(job.target, len) && "native_manifest" !in job.target && !job.full
    requires acts != [] && acts[0] == Fetch(true)
    requires IsRun(NATIVE, job, Run(MapOf(items)["native_manifest" := part], Begin), acts)
    ensures var end := After(NATIVE, job, Run(MapOf(items)["native_manifest" := part], Begin), acts);
            match NativeIndex(part)
            case Unreadable => end.phase == Failed
            case Index(was) =>
              end.phase == Done ==> Contents(NATIVE, end.d) == Strays(was, MapOf(items), job.target) + job.target
  {
    var d := MapOf(items)["native_manifest" := part];
    assert Contents(NATIVE, d) == MapOf(items);
    TornNativeTrusted(items, part, job.target, len);
    TornOutcome(NATIVE, job, d, acts);
  }

  /** A manifest that lists one dex, the directory it describes, and that directory after a
      wipe that was cut off with only the dex gone. */
  lemma HalfWipedIsInconsistent()
    ensures exists d: Files :: Consistent(DEX, d) && !Consistent(DEX, d - {"x"})
  {
    var es := [Entry("a", "-", "x", "c")];
    var text := Join(LinesOf(es), '\n');
    OneEntryPlain();
    LinesRoundTrip(es);
    DexTextValid(text, false);
    var job := Job(DexIndex(text).entries, text, false);
    InterruptedCommitIff(DEX, job, text);
    var d := job.target[DEX.manifest := text];
    assert es[0].installPath in PathsOf(es);
    InterruptedWipeIff(DEX, d, {"x"});
    assert "x" in d;
  }

  lemma OneEntryPlain()
    ensures PlainEntries([Entry("a", "-", "x", "c")]) && "manifest" !in PathsOf([Entry("a", "-", "x", "c")])
  {
  }

  // ---------------------------------------------------------------- the commands, in order

  class Device {
    var files: Files

    constructor (files: Files)
      ensures this.files == files
    {
      this.files := files;
    }
  }

  lemma {:induction false} RunAppend(store: Store, job: Job, s: Run, acts: seq<Act>, a: Act)
    requires IsRun(store, job, s, acts) && Enabled(store, job, After(store, job, s, acts), a)
    ensures IsRun(store, job, s, acts + [a])
    ensures After(store, job, s, acts + [a]) == Do(store, job, After(store, job, s, acts), a)
    decreases |acts|
  {
    var all := acts + [a];
    if acts == [] {
      assert all[1..] == [];
    } else {
      assert all[1..] == acts[1..] + [a];
      RunAppend(store, job, Do(store, job, s, acts[0]), acts[1..], a);
    }
  }

  /** The acts of a call so far lead from the device as it was to the given state. */
  ghost predicate Reached(store: Store, job: Job, start: Files, acts: seq<Act>, s: Run) {
    IsRun(store, job, Run(start, Begin), acts) && After(store, job, Run(start, Begin), acts) == s
  }

  lemma ReachMore(store: Store, job: Job, start: Files, acts: seq<Act>, s: Run, a: Act)
    requires Reached(store, job, start, acts, s) && Enabled(store, job, s, a)
    ensures Reached(store, job, start, acts + [a], Do(store, job, s, a))
  {
    RunAppend(store, job, Run(start, Begin), acts, a);
  }

  /** The outcome of one command; a reliable device never fails. */
  method Command(reliable: bool) returns (ok: bool, ran: bool)
    ensures ok ==> ran
    ensures reliable ==> ok
  {
    ran := *;
    ok := *;
    if reliable { ok := true; }
    if ok { ran := true; }
  }

  /** There is no old manifest to read, or it can be parsed. */
  predicate Readable(store: Store, job: Job, d: Files) {
    job.full || !Listed(store, d) || store.parse(d[store.manifest]).Index?
  }

  /** Reads the manifest from the device; without one, empties the directory. */
  method FetchOrWipe(dev: Device, store: Store, job: Job, reliable: bool)
    returns (ok: bool, was: Files, found: bool, ghost acts: seq<Act>)
    modifies dev
    ensures Reached(store, job, old(dev.files), acts, Run(dev.files, if ok then Decided(was, found) else Failed))
    ensures reliable ==> (ok <==> Readable(store, job, old(dev.files)))
    ensures job.full || !Listed(store, old(dev.files)) ==> !found
    ensures ok && !found ==> was == map[] && (store.wipes ==> dev.files == map[])
  {
    was, found, acts := map[], false, [];
    ghost var start := dev.files;
    var pulled, _ := Command(reliable);
    ReachMore(store, job, start, [], Run(start, Begin), Fetch(pulled));
    acts := [] + [Fetch(pulled)];
    if !job.full && pulled && Listed(store, dev.files) {
      match store.parse(dev.files[store.manifest]) {
        case Unreadable => ok := false;
        case Index(entries) => ok, was, found := true, entries, true;
      }
    } else if store.wipes {
      var ran;
      ok, ran := Command(reliable);
      ReachMore(store, job, start, acts, Run(start, Missing), Wipe(ok, ran));
      acts := acts + [Wipe(ok, ran)];
      if ran { dev.files := map[]; }
    } else {
      ok := true;
    }
  }

  /** Pushes the files in any order.  After a failure the pushes already started may still
      land, and the call ends with an exception. */
  method PushAll(dev: Device, store: Store, job: Job, files: set<string>, reliable: bool,
                 ghost start: Files, ghost before: seq<Act>)
    returns (ok: bool, ghost acts: seq<Act>)
    requires files <= job.target.Keys
    requires Reached(store, job, start, before, Run(dev.files, Pushing(files)))
    modifies dev
    ensures exists phase :: Reached(store, job, start, acts, Run(dev.files, phase)) && (ok ==> phase == Pushing({}))
    ensures reliable ==> ok
  {
    acts := before;
    var todo := files;
    ok := true;
    while todo != {}
      invariant todo <= job.target.Keys
      invariant Reached(store, job, start, acts, Run(dev.files, if ok then Pushing(todo) else Draining(todo)))
      invariant reliable ==> ok
      decreases |todo|
    {
      var name :| name in todo;
      if !ok {
        var stop: bool := *;
        if stop { return; }
      }
      var pushed, touched := Command(reliable);
      var left: string := *;
      if pushed { left := job.target[name]; }
      ReachMore(store, job, start, acts,
                Run(dev.files, if ok then Pushing(todo) else Draining(todo)), Push(name, pushed, touched, left));
      acts := acts + [Push(name, pushed, touched, left)];
      if touched { dev.files := dev.files[name := left]; }
      todo := todo - {name};
      ok := ok && pushed;
    }
  }

  /** The common body of the upload functions, after the manifest has been looked at. */
  method Bring(dev: Device, store: Store, job: Job, was: Files, found: bool, reliable: bool,
               ghost start: Files, ghost before: seq<Act>)
    returns (ok: bool, ghost acts: seq<Act>)
    requires Reached(store, job, start, before, Run(dev.files, Decided(was, found)))
    modifies dev
    ensures exists phase :: Reached(store, job, start, acts, Run(dev.files, phase)) && (ok ==> phase == Done)
    ensures reliable ==> ok
  {
    acts := before;
    var toDelete, toUpload := ToDelete(was, job.target), ToUpload(was, job.target);
    if toDelete == {} && toUpload == {} && (found || !store.emptyCounts) {
      ReachMore(store, job, start, acts, Run(dev.files, Decided(was, found)), Skip);
      acts := acts + [Skip];
      return true, acts;
    }
    var ran;
    ok, ran := Command(reliable);
    ReachMore(store, job, start, acts, Run(dev.files, Decided(was, found)), Unlist(ok, ran));
    acts := acts + [Unlist(ok, ran)];
    if ran { dev.files := dev.files - {store.manifest}; }
    if !ok { return; }
    ok, ran := Command(reliable);
    var removed: set<string> := *;
    removed := if ok then toDelete else removed * toDelete;
    ReachMore(store, job, start, acts, Run(dev.files, Unlisted(was)), Act.Clean(ok, removed));
    acts := acts + [Act.Clean(ok, removed)];
    dev.files := dev.files - removed;
    if !ok { return; }
    ok, acts := PushAll(dev, store, job, toUpload, reliable, start, acts);
    if !ok { return; }
    ok, ran := Command(reliable);
    ReachMore(store, job, start, acts, Run(dev.files, Pushing({})), Commit(ok, ran));
    acts := acts + [Commit(ok, ran)];
    if ran { dev.files := dev.files[store.manifest := job.text]; }
  }

  ghost predicate Installed(store: Store, job: Job, d: Files) {
    store.manifest in d && d - {store.manifest} == job.target
  }

  /** One upload: its acts are a run of the protocol, and with a reliable device it gets to
      the end.  A full one needs no sound directory to start from: when it succeeds, every file
      of the build has been pushed and nothing else is left. */
  method Upload(dev: Device, store: Store, job: Job, reliable: bool) returns (ok: bool, ghost acts: seq<Act>)
    modifies dev
    ensures exists phase :: Reached(store, job, old(dev.files), acts, Run(dev.files, phase)) && (ok ==> phase == Done)
    ensures reliable ==> (ok <==> Readable(store, job, old(dev.files)))
    ensures ok && store.wipes && ValidJob(store, job) && (job.full || !Listed(store, old(dev.files))) ==>
              && Installed(store, job, dev.files)
              && forall n :: n in job.target ==> Push(n, true, true, job.target[n]) in acts
  {
    ghost var start := dev.files;
    var was, found;
    ok, was, found, acts := FetchOrWipe(dev, store, job, reliable);
    if ok {
      ok, acts := Bring(dev, store, job, was, found, reliable, start, acts);
      if store.wipes && ValidJob(store, job) && (job.full || !Listed(store, start)) {
        WipeConverges(store, job, start, acts);
      }
    }
  }

  /** What an upload leaves, in one statement: the directory is consistent however it went,
      and holds exactly the build when it succeeded. */
  lemma UploadOutcome(store: Store, job: Job, start: Files, acts: seq<Act>, d: Files, phase: Phase)
    requires Consistent(store, start) && ValidJob(store, job)
    requires Reached(store, job, start, acts, Run(d, phase))
    ensures Consistent(store, d)
    ensures phase == Done ==> store.manifest in d && Contents(store, d) == job.target
  {
    RunKeeps(store, job, Run(start, Begin), acts);
    InvConsistent(store, job, Run(d, phase));
  }

  /** One upload of the three. */
  method UploadOne(dev: Device, store: Store, job: Job, reliable: bool) returns (ok: bool)
    requires ValidJob(store, job) && Consistent(store, dev.files)
    modifies dev
    ensures Consistent(store, dev.files) && (ok ==> Installed(store, job, dev.files)) && (reliable ==> ok)
  {
    ghost var start, acts := dev.files, [];
    ok, acts := Upload(dev, store, job, reliable);
    ghost var phase :| Reached(store, job, start, acts, Run(dev.files, phase)) && (ok ==> phase == Done);
    UploadOutcome(store, job, start, acts, dev.files, phase);
  }

  /** `UploadDexes`, `UploadResources` and `UploadNativeLibs` one after the other, each on
      its own directory; the first exception ends the installation. */
  method IncrementalInstall(dex: Device, resources: Device, native: Device,
                            dexJob: Job, resourceJob: Job, nativeJob: Job, reliable: bool)
    returns (ok: bool)
    requires dex != resources && dex != native && resources != native
    requires ValidJob(DEX, dexJob) && ValidJob(RESOURCES, resourceJob) && ValidJob(NATIVE, nativeJob)
    requires Consistent(DEX, dex.files) && Consistent(RESOURCES, resources.files) && Consistent(NATIVE, native.files)
    modifies dex, resources, native
    ensures Consistent(DEX, dex.files) && Consistent(RESOURCES, resources.files) && Consistent(NATIVE, native.files)
    ensures ok ==> Installed(DEX, dexJob, dex.files) && Installed(RESOURCES, resourceJob, resources.files)
                   && Installed(NATIVE, nativeJob, native.files)
    ensures reliable ==> ok
  {
    ok := UploadOne(dex, DEX, dexJob, reliable);
    if !ok { return; }
    ok := UploadOne(resources, RESOURCES, resourceJob, reliable);
    if !ok { return; }
    ok := UploadOne(native, NATIVE, nativeJob, reliable);
  }
}
