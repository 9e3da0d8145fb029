/** The dex manifest: how the build writes it and how the installer reads it back. */
module DexManifest {
  import opened Basics
  import opened TextLines

  datatype Entry = Entry(input: string, zipPath: string, installPath: string, checksum: string)

  /** A line without exactly four fields raises an exception. */
  datatype Parsed = Raises | Entries(entries: map<string, Entry>)

  function ParseLine(line: string): seq<Entry> {
    var f := Split(Strip(line, IsSpace), ' ');
    if |f| == 4 then [Entry(f[0], f[1], f[2], f[3])] else []
  }

  /** Parsed lines in order; a later one for the same install path replaces an earlier one. */
  function Collect(parsed: seq<seq<Entry>>): Parsed {
    if parsed == [] then Entries(map[])
    else
      var init, last := Collect(parsed[..|parsed| - 1]), parsed[|parsed| - 1];
      if init.Raises? || last == [] then Raises
      else Entries(init.entries[last[0].installPath := last[0]])
  }

  function ParseEach(lines: seq<string>): seq<seq<Entry>> {
    seq(|lines|, i requires 0 <= i < |lines| => ParseLine(lines[i]))
  }

  function ParseText(text: string): Parsed { Collect(ParseEach(Split(text, '\n'))) }

  method ParseManifest(contents: string) returns (result: Parsed)
    ensures result == ParseText(contents)
  {
    var lines := Split(contents, '\n');
    ghost var each := ParseEach(lines);
    var entries := map[];
    var i := 0;
    while i < |lines|
      invariant i <= |lines| == |each| && Collect(each[..i]) == Entries(entries)
    {
      var next := i + 1;
      var entry := ParseLine(lines[i]);
      CollectNext(each, i, next);
      if entry == [] {
        PrefixRaises(each, next);
        return Raises;
      }
      entries := entries[entry[0].installPath := entry[0]];
      i := next;
    }
    assert each[..i] == each;
    result := Entries(entries);
  }

  lemma CollectNext(each: seq<seq<Entry>>, i: nat, next: nat)
    requires i < |each| && next == i + 1
    ensures Collect(each[..next]) ==
            if Collect(each[..i]).Raises? || each[i] == [] then Raises
            else Entries(Collect(each[..i]).entries[each[i][0].installPath := each[i][0]])
  {
    assert each[..next][..i] == each[..i];
  }

  lemma {:induction false} PrefixRaises(each: seq<seq<Entry>>, n: nat)
    requires n <= |each| && Collect(each[..n]).Raises?
    ensures Collect(each).Raises?
  {
    if n == |each| {
      assert each[..n] == each;
    } else {
      assert each[..|each| - 1][..n] == each[..n];
      PrefixRaises(each[..|each| - 1], n);
    }
  }

  // ---------------------------------------------------------------- the builder

  /** One dex handed to `AddDex`; `zipPath` is empty for a dex that is not in a zip. */
  datatype Dex = Dex(input: string, zipPath: string, checksum: string)

  function InstallName(k: nat): string { "incremental_classes" + Decimal(k) + ".dex" }

  function EntryFor(d: Dex, k: nat): Entry {
    Entry(d.input, if d.zipPath == "" then "-" else d.zipPath, InstallName(k), d.checksum)
  }

  function Line(e: Entry): string { e.input + [' '] + (e.zipPath + [' '] + (e.installPath + [' '] + e.checksum)) }

  lemma FourFields(a: string, b: string, c: string, d: string)
    ensures Line(Entry(a, b, c, d)) == a + " " + b + " " + c + " " + d
  {
  }

  /** The dexes in order, keeping the first of each checksum. */
  function Distinct(dexes: seq<Dex>): seq<Dex> {
    if dexes == [] then []
    else
      var init, last := Distinct(dexes[..|dexes| - 1]), dexes[|dexes| - 1];
      if last.checksum in Checksums(init) then init else init + [last]
  }

  function Checksums(dexes: seq<Dex>): set<string> { set i | 0 <= i < |dexes| :: dexes[i].checksum }

  function EntriesFor(dexes: seq<Dex>): seq<Entry> {
    seq(|dexes|, i requires 0 <= i < |dexes| => EntryFor(dexes[i], i + 1))
  }

  function LinesOf(entries: seq<Entry>): seq<string> {
    seq(|entries|, i requires 0 <= i < |entries| => Line(entries[i]))
  }

  function Lines(dexes: seq<Dex>): seq<string> { LinesOf(EntriesFor(dexes)) }

  class DexmanifestBuilder {
    var manifestLines: seq<string>
    var outputDexCounter: nat
    var checksums: set<string>
    ghost var added: seq<Dex>

    ghost predicate Valid()
      reads this
    {
      && manifestLines == Lines(Distinct(added))
      && outputDexCounter == |Distinct(added)| + 1
      && checksums == Checksums(Distinct(added))
    }

    constructor ()
      ensures Valid() && added == []
    {
      manifestLines, outputDexCounter, checksums, added := [], 1, {}, [];
    }

    method AddDex(input: string, zipPath: string, checksum: string)
      requires Valid()
      modifies this
      ensures Valid() && added == old(added) + [Dex(input, zipPath, checksum)]
      ensures manifestLines == old(manifestLines) +
              if checksum in old(checksums) then []
              else [input + " " + (if zipPath == "" then "-" else zipPath) + " "
                    + ("incremental_classes" + Decimal(old(outputDexCounter)) + ".dex") + " " + checksum]
    {
      ghost var dex := Dex(input, zipPath, checksum);
      ghost var all := added + [dex];
      assert all[..|all| - 1] == added;
      ghost var before := Distinct(added);
      added := all;
      if checksum in checksums { return; }
      checksums := checksums + {checksum};
      var zipDex := InstallName(outputDexCounter);
      outputDexCounter := outputDexCounter + 1;
      manifestLines := manifestLines + [Line(Entry(input, if zipPath == "" then "-" else zipPath, zipDex, checksum))];
      LinesAppend(before, dex);
      ChecksumsAppend(before, dex);
      FourFields(input, if zipPath == "" then "-" else zipPath, zipDex, checksum);
    }

    /** The text `Run` writes at the end. */
    method Manifest() returns (text: string)
      requires Valid()
      ensures text == Join(Lines(Distinct(added)), '\n')
    {
      text := Join(manifestLines, '\n');
    }
  }

  // ---------------------------------------------------------------- round trip

  predicate Unbroken(s: string) { ' ' !in s && '\n' !in s }

  /** What a field must be to come back from the front, or the end, of a line. */
  predicate FirstField(s: string) { s != "" && Unbroken(s) && !IsSpace(s[0]) }

  predicate LastField(s: string) { s != "" && Unbroken(s) && !IsSpace(s[|s| - 1]) }

  /** Names without blanks and newlines; the input, which comes first, does not begin with
      white space, and the checksum, which comes last, does not end with it. */
  predicate PlainDex(d: Dex) { FirstField(d.input) && Unbroken(d.zipPath) && LastField(d.checksum) }

  predicate PlainDexes(dexes: seq<Dex>) { forall i :: 0 <= i < |dexes| ==> PlainDex(dexes[i]) }

  function InstallNames(n: nat): set<string> { set k: nat | 1 <= k <= n :: InstallName(k) }

  lemma InstallNamePlain(k: nat)
    ensures Unbroken(InstallName(k)) && InstallName(k)[0] == 'i'
    ensures forall j: nat :: InstallName(j) == InstallName(k) ==> j == k
  {
    DecimalNoSpace(k);
    NoSpaceMeaning(Decimal(k));
    NoBlanks();
    forall j: nat | InstallName(j) == InstallName(k) ensures j == k {
      var prefix, a, b := |"incremental_classes"|, InstallName(j), InstallName(k);
      assert a[prefix..|a| - 4] == Decimal(j) && b[prefix..|b| - 4] == Decimal(k);
      DecimalInjective(j, k);
    }
  }

  lemma NoBlanks()
    ensures Unbroken("incremental_classes") && Unbroken(".dex") && Unbroken("-")
  {
  }

  lemma LineRoundTrip(e: Entry)
    requires PlainEntry(e)
    ensures ParseLine(Line(e)) == [e] && '\n' !in Line(e)
  {
    StripIdle(Line(e));
    SplitFour(e.input, e.zipPath, e.installPath, e.checksum, ' ');
  }

  predicate PlainEntry(e: Entry) {
    FirstField(e.input) && Unbroken(e.zipPath) && Unbroken(e.installPath) && LastField(e.checksum)
  }

  /** What a line is parsed as is always plain. */
  lemma ParsedIsPlain(line: string)
    requires ParseLine(line) != [] && '\n' !in line
    ensures PlainEntry(ParseLine(line)[0])
  {
    var e, q := ParseLine(line)[0], Strip(line, IsSpace);
    StripMeaning(line, '\n');
    SplitPieces(q, ' ', '\n');
    JoinSplit(q, ' ');
    LineIsJoin(e);
    assert Split(q, ' ') == [e.input, e.zipPath, e.installPath, e.checksum];
    LineEnds(e);
  }

  lemma LineEnds(e: Entry)
    ensures var l := Line(e);
            && l[0] == (if e.input == "" then ' ' else e.input[0])
            && l[|l| - 1] == (if e.checksum == "" then ' ' else e.checksum[|e.checksum| - 1])
  {
  }

  function PathsOf(entries: seq<Entry>): set<string> { set i | 0 <= i < |entries| :: entries[i].installPath }

  lemma PathsAppend(es: seq<Entry>, e: Entry)
    ensures PathsOf(es + [e]) == PathsOf(es) + {e.installPath}
  {
    var all := es + [e];
    forall x | x in PathsOf(es) + {e.installPath} ensures x in PathsOf(all) {
      if x == e.installPath {
        assert all[|es|].installPath == x;
      } else {
        var i :| 0 <= i < |es| && es[i].installPath == x;
        assert all[i].installPath == x;
      }
    }
  }

  function Table(es: seq<Entry>): map<string, Entry> {
    if es == [] then map[] else Table(es[..|es| - 1])[es[|es| - 1].installPath := es[|es| - 1]]
  }

  lemma {:induction false} TableKeys(es: seq<Entry>)
    ensures Table(es).Keys == PathsOf(es)
  {
    if es != [] {
      var init, last := es[..|es| - 1], es[|es| - 1];
      TableKeys(init);
      assert es == init + [last];
      PathsAppend(init, last);
    }
  }

  lemma {:induction false} TableLooksUp(es: seq<Entry>, i: nat)
    requires i < |es| && forall j :: i < j < |es| ==> es[j].installPath != es[i].installPath
    ensures es[i].installPath in Table(es) && Table(es)[es[i].installPath] == es[i]
  {
    if i < |es| - 1 { TableLooksUp(es[..|es| - 1], i); }
  }

  lemma {:induction false} TableSize(es: seq<Entry>)
    requires DistinctPaths(es)
    ensures |Table(es)| == |es|
  {
    if es != [] {
      var init, last := es[..|es| - 1], es[|es| - 1];
      TableSize(init);
      TableKeys(init);
      assert last.installPath !in PathsOf(init);
    }
  }

  lemma {:induction false} CollectAll(each: seq<seq<Entry>>, es: seq<Entry>)
    requires |each| == |es| && forall i :: 0 <= i < |es| ==> each[i] == [es[i]]
    ensures Collect(each) == Entries(Table(es))
  {
    if es != [] { CollectAll(each[..|es| - 1], es[..|es| - 1]); }
  }

  ghost predicate DistinctPaths(es: seq<Entry>) {
    forall i, j :: 0 <= i < j < |es| ==> es[i].installPath != es[j].installPath
  }

  predicate PlainEntries(es: seq<Entry>) { forall i :: 0 <= i < |es| ==> PlainEntry(es[i]) }

  lemma LinesParse(es: seq<Entry>)
    requires es != [] && PlainEntries(es)
    ensures ParseText(Join(LinesOf(es), '\n')) == Entries(Table(es))
  {
    var lines := LinesOf(es);
    forall i | 0 <= i < |es| ensures ParseLine(lines[i]) == [es[i]] && '\n' !in lines[i] {
      LineRoundTrip(es[i]);
    }
    SplitJoin(lines, '\n');
    CollectAll(ParseEach(lines), es);
  }

  /** Any list of plain entries with distinct install paths survives being written and read. */
  lemma LinesRoundTrip(es: seq<Entry>)
    requires es != [] && PlainEntries(es) && DistinctPaths(es)
    ensures var p := ParseText(Join(LinesOf(es), '\n'));
            && p.Entries? && |p.entries| == |es| && p.entries.Keys == PathsOf(es)
            && forall i :: 0 <= i < |es| ==> p.entries[es[i].installPath] == es[i]
  {
    LinesParse(es);
    TableKeys(es);
    TableSize(es);
    forall i | 0 <= i < |es| ensures es[i].installPath in Table(es) && Table(es)[es[i].installPath] == es[i] {
      TableLooksUp(es, i);
    }
  }

  /** Lines cut off at the end: those that are whole, and what the last one parses as. */
  lemma CutLines(es: seq<Entry>, piece: string)
    requires forall i :: 0 <= i < |es| ==> PlainEntry(es[i])
    ensures Collect(ParseEach(LinesOf(es) + [piece])) ==
            if ParseLine(piece) == [] then Raises
            else Entries(Table(es)[ParseLine(piece)[0].installPath := ParseLine(piece)[0]])
  {
    var lines := LinesOf(es);
    var each := ParseEach(lines + [piece]);
    assert each[..|each| - 1] == ParseEach(lines);
    forall i | 0 <= i < |es| ensures ParseEach(lines)[i] == [es[i]] { LineRoundTrip(es[i]); }
    CollectAll(ParseEach(lines), es);
  }

  /** The beginning of a line that has four fields has those of the whole one, but perhaps
      not the whole checksum. */
  lemma PieceFields(e: Entry, piece: string)
    requires PlainEntry(e) && piece <= Line(e) && ParseLine(piece) != []
    ensures var f := ParseLine(piece)[0];
            && f.installPath == e.installPath && f.checksum <= e.checksum
            && (f.checksum == e.checksum ==> piece == Line(e))
  {
    var parts := [e.input, e.zipPath, e.installPath, e.checksum];
    var q := Strip(piece, IsSpace);
    LineIsJoin(e);
    if piece == "" { SplitWhole("", ' '); }
    assert piece != "" && piece[0] == e.input[0];
    StripIsPrefix(piece);
    var k, last := SplitPrefix(parts, ' ', q);
    assert k == 3;
  }

  lemma LineIsJoin(e: Entry)
    ensures Line(e) == Join([e.input, e.zipPath, e.installPath, e.checksum], ' ')
  {
    assert [e.installPath] + [e.checksum] == [e.installPath, e.checksum];
    assert [e.zipPath] + [e.installPath, e.checksum] == [e.zipPath, e.installPath, e.checksum];
    assert [e.input] + [e.zipPath, e.installPath, e.checksum] == [e.input, e.zipPath, e.installPath, e.checksum];
    JoinCons(e.installPath, [e.checksum], ' ');
    JoinCons(e.zipPath, [e.installPath, e.checksum], ' ');
    JoinCons(e.input, [e.zipPath, e.installPath, e.checksum], ' ');
  }

  lemma StripIsPrefix(s: string)
    requires s != "" && !IsSpace(s[0])
    ensures Strip(s, IsSpace) <= s
  {
    StripRightIsPrefix(s);
  }

  lemma {:induction false} StripRightIsPrefix(s: string)
    ensures StripRight(s, IsSpace) <= s
  {
    if s != "" && IsSpace(s[|s| - 1]) { StripRightIsPrefix(s[..|s| - 1]); }
  }

  /** The checksums a text lists, by install path. */
  function SumsListed(text: string): Option<map<string, string>> {
    match ParseText(text)
    case Raises => None
    case Entries(entries) => Some(Sums(entries))
  }

  /** A manifest cut off anywhere lists something else. */
  lemma PrefixListsIff(es: seq<Entry>, p: string)
    requires es != [] && PlainEntries(es) && DistinctPaths(es)
    requires p <= Join(LinesOf(es), '\n')
    ensures SumsListed(p) == SumsListed(Join(LinesOf(es), '\n')) <==> p == Join(LinesOf(es), '\n')
  {
    if SumsListed(p) == SumsListed(Join(LinesOf(es), '\n')) { PrefixIsWhole(es, p); }
  }

  lemma PrefixIsWhole(es: seq<Entry>, p: string)
    requires es != [] && PlainEntries(es) && DistinctPaths(es)
    requires p <= Join(LinesOf(es), '\n') && SumsListed(p) == SumsListed(Join(LinesOf(es), '\n'))
    ensures p == Join(LinesOf(es), '\n')
  {
    var lines := LinesOf(es);
    forall i | 0 <= i < |es| ensures '\n' !in lines[i] { LineRoundTrip(es[i]); }
    var k, piece := SplitPrefix(lines, '\n', p);
    assert lines[..k] == LinesOf(es[..k]);
    CutLines(es[..k], piece);
    LinesParse(es);
    if ParseLine(piece) != [] { SameListed(es, k, ParseLine(piece)[0], piece); }
  }

  lemma TablePrefix(es: seq<Entry>, k: nat, name: string)
    requires k <= |es| && DistinctPaths(es) && name in Table(es[..k])
    ensures name in Table(es) && Table(es)[name] == Table(es[..k])[name]
  {
    TableKeys(es[..k]);
    var i :| 0 <= i < k && es[..k][i].installPath == name;
    TableLooksUp(es[..k], i);
    TableLooksUp(es, i);
  }

  /** What a manifest cut off anywhere lists: the entries before the cut, and perhaps the
      next one with the beginning of its checksum. */
  lemma PrefixLists(es: seq<Entry>, p: string) returns (k: nat, e: Entry)
    requires es != [] && PlainEntries(es) && p <= Join(LinesOf(es), '\n')
    ensures k < |es|
    ensures SumsListed(p).Some? ==>
              && SumsListed(p) == Some(Sums(Table(es[..k])[e.installPath := e]))
              && e.installPath == es[k].installPath && e.checksum <= es[k].checksum
  {
    var lines := LinesOf(es);
    forall i | 0 <= i < |es| ensures '\n' !in lines[i] { LineRoundTrip(es[i]); }
    var piece;
    k, piece := SplitPrefix(lines, '\n', p);
    assert lines[..k] == LinesOf(es[..k]);
    CutLines(es[..k], piece);
    if ParseLine(piece) == [] {
      e := es[0];
    } else {
      e := ParseLine(piece)[0];
      PieceFields(es[k], piece);
    }
  }

  function Sums(m: map<string, Entry>): map<string, string> { map n | n in m :: m[n].checksum }

  lemma SumsSize(m: map<string, Entry>)
    ensures |Sums(m)| == |m|
  {
    assert Sums(m).Keys == m.Keys;
  }

  lemma SameListed(es: seq<Entry>, k: nat, e: Entry, piece: string)
    requires k < |es| && PlainEntry(es[k]) && piece <= Line(es[k]) && ParseLine(piece) == [e] && DistinctPaths(es)
    requires Sums(Table(es[..k])[e.installPath := e]) == Sums(Table(es))
    ensures k == |es| - 1 && piece == Line(es[k])
  {
    SameCount(es, k, e);
    LastListed(es, e);
    PieceFields(es[k], piece);
  }

  lemma SameCount(es: seq<Entry>, k: nat, e: Entry)
    requires k < |es| && DistinctPaths(es) && Sums(Table(es[..k])[e.installPath := e]) == Sums(Table(es))
    ensures k == |es| - 1
  {
    SumsSize(Table(es[..k])[e.installPath := e]);
    SumsSize(Table(es));
    TableSize(es);
    TableSize(es[..k]);
  }

  lemma LastListed(es: seq<Entry>, e: Entry)
    requires es != [] && DistinctPaths(es)
    requires Sums(Table(es[..|es| - 1])[e.installPath := e]) == Sums(Table(es))
    ensures e.checksum == es[|es| - 1].checksum
  {
    var init, last := es[..|es| - 1], es[|es| - 1];
    TableKeys(init);
    assert last.installPath !in PathsOf(init);
    assert last.installPath in Sums(Table(es)) && Sums(Table(es))[last.installPath] == last.checksum;
  }

  lemma EntryForPlain(d: Dex, k: nat)
    ensures PlainEntry(EntryFor(d, k)) <==> PlainDex(d)
  {
    InstallNamePlain(k);
    NoBlanks();
  }

  lemma EntriesForPlain(dexes: seq<Dex>)
    requires PlainDexes(dexes)
    ensures var es := EntriesFor(dexes);
            PlainEntries(es) && DistinctPaths(es) && PathsOf(es) == InstallNames(|dexes|)
  {
    var es := EntriesFor(dexes);
    forall i | 0 <= i < |es| ensures PlainEntry(es[i]) { EntryForPlain(dexes[i], i + 1); }
    forall i, j | 0 <= i < j < |es| ensures es[i].installPath != es[j].installPath { InstallNamePlain(i + 1); }
    PathsAreNames(dexes);
  }

  lemma PathAt(dexes: seq<Dex>, i: nat)
    requires i < |dexes|
    ensures EntriesFor(dexes)[i].installPath == InstallName(i + 1)
    ensures InstallName(i + 1) in PathsOf(EntriesFor(dexes)) && InstallName(i + 1) in InstallNames(|dexes|)
  {
    assert EntriesFor(dexes)[i].installPath in PathsOf(EntriesFor(dexes));
  }

  lemma PathsAreNames(dexes: seq<Dex>)
    ensures PathsOf(EntriesFor(dexes)) == InstallNames(|dexes|)
  {
    var es := EntriesFor(dexes);
    forall x | x in InstallNames(|dexes|) ensures x in PathsOf(es) {
      var k: nat :| 1 <= k <= |dexes| && x == InstallName(k);
      PathAt(dexes, k - 1);
    }
    forall x | x in PathsOf(es) ensures x in InstallNames(|dexes|) {
      var i :| 0 <= i < |es| && es[i].installPath == x;
      PathAt(dexes, i);
    }
  }

  lemma {:induction false} DistinctKeeps(dexes: seq<Dex>)
    ensures forall d :: d in Distinct(dexes) ==> d in dexes
    ensures Checksums(Distinct(dexes)) == Checksums(dexes)
    ensures forall i, j :: 0 <= i < j < |Distinct(dexes)| ==> Distinct(dexes)[i].checksum != Distinct(dexes)[j].checksum
    ensures dexes != [] ==> Distinct(dexes) != []
  {
    if dexes != [] {
      var init, last := dexes[..|dexes| - 1], dexes[|dexes| - 1];
      DistinctKeeps(init);
      assert dexes == init + [last];
      ChecksumsAppend(init, last);
      ChecksumsAppend(Distinct(init), last);
    }
  }

  predicate FirstAt(dexes: seq<Dex>, i: nat, d: Dex) {
    i < |dexes| && dexes[i] == d && forall j :: 0 <= j < i ==> dexes[j].checksum != d.checksum
  }

  /** A dex is kept if and only if no dex before it has its checksum. */
  lemma {:induction false} DistinctIsFirst(dexes: seq<Dex>, d: Dex)
    ensures d in Distinct(dexes) <==> exists i: nat :: FirstAt(dexes, i, d)
  {
    if dexes != [] {
      var init, last := dexes[..|dexes| - 1], dexes[|dexes| - 1];
      DistinctIsFirst(init, d);
      DistinctKeeps(init);
      if i: nat :| FirstAt(init, i, d) { assert FirstAt(dexes, i, d); }
      if i: nat :| FirstAt(dexes, i, d) && i < |init| { assert FirstAt(init, i, d); }
      assert last.checksum in Checksums(init) <==> exists j :: 0 <= j < |init| && init[j].checksum == last.checksum;
      if last.checksum !in Checksums(init) && d == last { assert FirstAt(dexes, |init|, d); }
    }
  }

  lemma LinesAppend(dexes: seq<Dex>, d: Dex)
    ensures Lines(dexes + [d]) == Lines(dexes) + [Line(EntryFor(d, |dexes| + 1))]
  {
    assert EntriesFor(dexes + [d]) == EntriesFor(dexes) + [EntryFor(d, |dexes| + 1)];
  }

  lemma ChecksumsAppend(dexes: seq<Dex>, d: Dex)
    ensures Checksums(dexes + [d]) == Checksums(dexes) + {d.checksum}
  {
    var all := dexes + [d];
    forall c | c in Checksums(dexes) + {d.checksum} ensures c in Checksums(all) {
      if c == d.checksum {
        assert all[|dexes|].checksum == c;
      } else {
        var i :| 0 <= i < |dexes| && dexes[i].checksum == c;
        assert all[i].checksum == c;
      }
    }
  }

  /** The entry of the k-th dex: its own fields, "-" where it is not in a zip, and a numbered
      install path. */
  predicate Describes(e: Entry, d: Dex, k: nat) {
    && e.input == d.input && e.checksum == d.checksum
    && e.zipPath == (if d.zipPath != "" then d.zipPath else "-")
    && e.installPath == "incremental_classes" + Decimal(k) + ".dex"
  }

  /** The manifest lists the dexes: one entry for each, at install paths numbered from 1. */
  ghost predicate ListsAll(p: Parsed, kept: seq<Dex>) {
    && p.Entries? && |p.entries| == |kept| && p.entries.Keys == InstallNames(|kept|)
    && forall k :: 1 <= k <= |kept| ==>
         InstallName(k) in p.entries && Describes(p.entries[InstallName(k)], kept[k - 1], k)
  }

  /** Reading back the manifest built from any non-empty list of dexes gives one entry per
      distinct checksum, at install paths numbered from 1, each with the input file, zip
      path and checksum of the first dex that had it, if and only if those are plain. */
  lemma ManifestRoundTripIff(dexes: seq<Dex>)
    requires dexes != []
    ensures var kept := Distinct(dexes);
            ListsAll(ParseText(Join(Lines(kept), '\n')), kept) <==> PlainDexes(kept)
    ensures |Distinct(dexes)| == |Checksums(dexes)| && "manifest" !in InstallNames(|Distinct(dexes)|)
  {
    var kept := Distinct(dexes);
    DistinctKeeps(dexes);
    DistinctCount(kept);
    NotTheManifest(|kept|);
    if PlainDexes(kept) { KeptRoundTrip(kept); }
    if ListsAll(ParseText(Join(Lines(kept), '\n')), kept) { ListedArePlain(kept); }
  }

  lemma {:induction false} CollectFrom(each: seq<seq<Entry>>, name: string)
    requires Collect(each).Entries? && name in Collect(each).entries
    ensures exists i :: 0 <= i < |each| && each[i] == [Collect(each).entries[name]]
    requires forall i :: 0 <= i < |each| ==> |each[i]| <= 1
  {
    var init, last := each[..|each| - 1], each[|each| - 1];
    if last[0].installPath != name {
      CollectFrom(init, name);
      var i :| 0 <= i < |init| && init[i] == [Collect(init).entries[name]];
      assert each[i] == init[i];
    } else {
      assert last == [last[0]];
    }
  }

  lemma ParsedArePlain(text: string, name: string)
    requires ParseText(text).Entries? && name in ParseText(text).entries
    ensures PlainEntry(ParseText(text).entries[name])
  {
    var lines := Split(text, '\n');
    CollectFrom(ParseEach(lines), name);
    var i :| 0 <= i < |lines| && ParseLine(lines[i]) == [ParseText(text).entries[name]];
    ParsedIsPlain(lines[i]);
  }

  lemma ListedArePlain(kept: seq<Dex>)
    requires ListsAll(ParseText(Join(Lines(kept), '\n')), kept)
    ensures PlainDexes(kept)
  {
    forall i | 0 <= i < |kept| ensures PlainDex(kept[i]) {
      ParsedArePlain(Join(Lines(kept), '\n'), InstallName(i + 1));
      EntryForPlain(kept[i], i + 1);
      assert ParseText(Join(Lines(kept), '\n')).entries[InstallName(i + 1)] == EntryFor(kept[i + 1 - 1], i + 1);
    }
  }

  lemma KeptRoundTrip(kept: seq<Dex>)
    requires kept != [] && PlainDexes(kept)
    ensures ListsAll(ParseText(Join(Lines(kept), '\n')), kept)
  {
    var es := EntriesFor(kept);
    EntriesForPlain(kept);
    LinesRoundTrip(es);
    var p := ParseText(Join(Lines(kept), '\n'));
    forall k | 1 <= k <= |kept|
      ensures InstallName(k) in p.entries && Describes(p.entries[InstallName(k)], kept[k - 1], k)
    {
      assert es[k - 1] == EntryFor(kept[k - 1], k) && InstallName(k) in InstallNames(|kept|);
    }
  }

  lemma NotTheManifest(n: nat)
    ensures "manifest" !in InstallNames(n)
  {
    forall k: nat ensures InstallName(k) != "manifest" { InstallNamePlain(k); }
  }

  lemma {:induction false} DistinctCount(dexes: seq<Dex>)
    requires forall i, j :: 0 <= i < j < |dexes| ==> dexes[i].checksum != dexes[j].checksum
    ensures |Checksums(dexes)| == |dexes|
  {
    if dexes != [] {
      var init, last := dexes[..|dexes| - 1], dexes[|dexes| - 1];
      DistinctCount(init);
      assert dexes == init + [last];
      ChecksumsAppend(init, last);
      assert last.checksum !in Checksums(init);
    }
  }
}
