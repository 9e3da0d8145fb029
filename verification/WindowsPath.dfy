/** Windows path normalisation. */
module WindowsPath {
  import opened Basics
  import opened PathSegments

  predicate Sep(c: char) { c == '/' || c == '\\' }

  predicate HasUncPrefix(p: string) {
    |p| >= 4 && p[0] == '\\'
    && ((p[1] == '\\' && (p[2] == '?' || p[2] == '.')) || (p[1] == '?' && p[2] == '?'))
    && p[3] == '\\'
  }

  function Body(p: string): string { if HasUncPrefix(p) then p[4..] else p }

  function Segments(p: string): seq<string> { Segs(Body(p), Sep, []) }

  predicate IsDrive(seg: string) {
    |seg| == 2 && ('A' <= seg[0] <= 'Z' || 'a' <= seg[0] <= 'z') && seg[1] == ':'
  }

  // ---------------------------------------------------------------- what a path means

  datatype Start = Drive(name: string) | Root | Here

  /** Where a path leads: from its start, up a number of levels, then down the names. */
  datatype Place = Place(start: Start, ups: nat, names: seq<string>)

  function Moved(pl: Place, seg: string): Place {
    if seg == DOT then pl
    else if seg == DOTDOT then
      if pl.names != [] then pl.(names := pl.names[..|pl.names| - 1])
      else if pl.start == Here then pl.(ups := pl.ups + 1)
      else pl
    else pl.(names := pl.names + [seg])
  }

  function Fold(pl: Place, segs: seq<string>): Place {
    if segs == [] then pl else Moved(Fold(pl, segs[..|segs| - 1]), segs[|segs| - 1])
  }

  /** What the segments alone say: a drive first makes the path absolute. */
  function Led(segs: seq<string>): Place {
    if segs != [] && IsDrive(segs[0]) then Fold(Place(Drive(segs[0]), 0, []), segs[1..])
    else Fold(Place(Here, 0, []), segs)
  }

  predicate Rooted(p: string) { Body(p) != [] && Sep(Body(p)[0]) }

  function Meaning(p: string): Place {
    if Rooted(p) then Fold(Place(Root, 0, []), Segments(p)) else Led(Segments(p))
  }

  // ---------------------------------------------------------------- the normal form

  function Ups(n: nat): seq<string> { if n == 0 then [] else Ups(n - 1) + [DOTDOT] }

  function Joined(segs: seq<string>): string
    requires segs != []
  {
    var init, last := segs[..|segs| - 1], segs[|segs| - 1];
    if init == [] then last else Joined(init) + (['\\'] + last)
  }

  predicate EndsInDot(segs: seq<string>) { segs != [] && segs[|segs| - 1] == DOT }

  function Listing(pl: Place): seq<string> {
    match pl.start
    case Drive(d) => [d] + pl.names
    case _ => Ups(pl.ups) + pl.names
  }

  /** The segments of the normal form; a path that leads nowhere keeps a last "." */
  function Held(segs: seq<string>): seq<string> {
    var l := Listing(Led(segs));
    if l == [] && EndsInDot(segs) then [DOT] else l
  }

  function Normalized(p: string): string {
    var segs := Segments(p);
    var held := Held(segs);
    if held == [] then []
    else if Led(segs).start.Drive? && |held| == 1 then Joined(held) + "\\"
    else Joined(held)
  }

  // ---------------------------------------------------------------- folding

  predicate Name(s: string) { Solid(s, Sep) && s != DOT && s != DOTDOT }

  ghost predicate Proper(pl: Place) {
    && (forall i :: 0 <= i < |pl.names| ==> Name(pl.names[i]))
    && (pl.start != Here ==> pl.ups == 0)
    && (pl.start.Drive? ==> IsDrive(pl.start.name) && Name(pl.start.name))
  }

  lemma DriveIsName(d: string)
    requires IsDrive(d)
    ensures Name(d)
  {
    assert forall i :: 0 <= i < |d| ==> !Sep(d[i]);
  }

  lemma MovedProper(pl: Place, seg: string)
    requires Proper(pl) && Solid(seg, Sep)
    ensures Proper(Moved(pl, seg)) && Moved(pl, seg).start == pl.start
  {
  }

  lemma {:induction false} FoldProper(pl: Place, segs: seq<string>)
    requires Proper(pl) && AllSolid(segs, Sep)
    ensures Proper(Fold(pl, segs)) && Fold(pl, segs).start == pl.start
  {
    if segs != [] {
      FoldProper(pl, segs[..|segs| - 1]);
      MovedProper(Fold(pl, segs[..|segs| - 1]), segs[|segs| - 1]);
    }
  }

  lemma LedProper(segs: seq<string>)
    requires AllSolid(segs, Sep)
    ensures Proper(Led(segs)) && Led(segs).start != Root
    ensures Led(segs).start.Drive? <==> segs != [] && IsDrive(segs[0])
  {
    if segs != [] && IsDrive(segs[0]) {
      DriveIsName(segs[0]);
      FoldProper(Place(Drive(segs[0]), 0, []), segs[1..]);
    } else {
      FoldProper(Place(Here, 0, []), segs);
    }
  }

  lemma FoldSnoc(pl: Place, segs: seq<string>, seg: string)
    ensures Fold(pl, segs + [seg]) == Moved(Fold(pl, segs), seg)
  {
    assert (segs + [seg])[..|segs|] == segs;
  }

  lemma LedSnoc(segs: seq<string>, seg: string)
    requires segs != []
    ensures Led(segs + [seg]) == Moved(Led(segs), seg)
  {
    FoldSnoc(Place(Here, 0, []), segs, seg);
    FoldSnoc(Place(Drive(segs[0]), 0, []), segs[1..], seg);
    assert (segs + [seg])[1..] == segs[1..] + [seg];
  }

  lemma {:induction false} FoldNames(pl: Place, a: seq<string>, names: seq<string>)
    requires forall i :: 0 <= i < |names| ==> Name(names[i])
    ensures Fold(pl, a + names) == var q := Fold(pl, a); q.(names := q.names + names)
    decreases |names|
  {
    if names == [] {
      Nothing(a);
      Nothing(Fold(pl, a).names);
    } else {
      var init, last := names[..|names| - 1], names[|names| - 1];
      FoldNames(pl, a, init);
      assert init + [last] == names;
      Regroup(a, init, [last]);
      Regroup(Fold(pl, a).names, init, [last]);
      FoldSnoc(pl, a + init, last);
    }
  }

  lemma {:induction false} FoldUps(n: nat)
    ensures Fold(Place(Here, 0, []), Ups(n)) == Place(Here, n, [])
  {
    if n > 0 {
      FoldUps(n - 1);
      FoldSnoc(Place(Here, 0, []), Ups(n - 1), DOTDOT);
    }
  }

  lemma {:induction false} UpsAre(n: nat)
    ensures |Ups(n)| == n && forall i :: 0 <= i < n ==> Ups(n)[i] == DOTDOT
  {
    if n > 0 { UpsAre(n - 1); }
  }

  predicate StartsWithDrive(pl: Place) {
    pl.start == Here && pl.ups == 0 && pl.names != [] && IsDrive(pl.names[0])
  }

  /** The listing of a place leads there, unless a relative place starts with a drive. */
  lemma LedListing(pl: Place)
    requires Proper(pl) && pl.start != Root && !StartsWithDrive(pl)
    ensures Led(Listing(pl)) == pl
  {
    if pl.start.Drive? { LedAbsolute(pl); } else { LedRelative(pl); }
  }

  lemma LedAbsolute(pl: Place)
    requires Proper(pl) && pl.start.Drive?
    ensures Led(Listing(pl)) == pl
  {
    var l := Listing(pl);
    assert l[1..] == pl.names;
    FoldNames(Place(pl.start, 0, []), [], pl.names);
    Nothing(pl.names);
  }

  lemma LedRelative(pl: Place)
    requires Proper(pl) && pl.start == Here && !StartsWithDrive(pl)
    ensures Led(Listing(pl)) == pl
  {
    UpsAre(pl.ups);
    assert Listing(pl) != [] ==> Listing(pl)[0] == if pl.ups > 0 then DOTDOT else pl.names[0];
    FoldUps(pl.ups);
    FoldNames(Place(Here, 0, []), Ups(pl.ups), pl.names);
    Nothing(pl.names);
  }

  lemma LedDriveListing(pl: Place)
    requires Proper(pl) && StartsWithDrive(pl)
    ensures Led(Listing(pl)).start == Drive(pl.names[0])
  {
    Nothing(pl.names);
    assert Ups(0) == [];
    LedProper(pl.names);
    FoldProper(Place(Drive(pl.names[0]), 0, []), pl.names[1..]);
  }

  lemma ListingSolid(pl: Place)
    requires Proper(pl) && pl.start != Root
    ensures AllSolid(Listing(pl), Sep)
  {
    UpsAre(pl.ups);
    assert Solid(DOTDOT, Sep);
  }

  // ---------------------------------------------------------------- reading back

  lemma {:induction false} JoinedReads(segs: seq<string>)
    requires segs != [] && AllSolid(segs, Sep)
    ensures Joined(segs) != [] && Joined(segs)[0] == segs[0][0]
    ensures Segs(Joined(segs), Sep, []) == segs
  {
    var init, last := segs[..|segs| - 1], segs[|segs| - 1];
    SegsOne(last, Sep);
    assert init + [last] == segs;
    if init != [] {
      JoinedReads(init);
      SegsCut(Joined(init), '\\', last, Sep, []);
    }
  }

  lemma BodyOfPlain(p: string)
    requires p == [] || !Sep(p[0])
    ensures Body(p) == p && !Rooted(p)
  {
  }

  lemma JoinedSegments(segs: seq<string>)
    requires segs != [] && AllSolid(segs, Sep)
    ensures Segments(Joined(segs)) == segs && !Rooted(Joined(segs))
    ensures Segments(Joined(segs) + "\\") == segs && !Rooted(Joined(segs) + "\\")
  {
    JoinedReads(segs);
    assert !Sep(segs[0][0]);
    BodyOfPlain(Joined(segs));
    BodyOfPlain(Joined(segs) + "\\");
    SegsCut(Joined(segs), '\\', [], Sep, []);
    Nothing("\\");
    Nothing(segs);
  }

  lemma HeldSolid(segs: seq<string>)
    requires AllSolid(segs, Sep)
    ensures AllSolid(Held(segs), Sep)
  {
    LedProper(segs);
    ListingSolid(Led(segs));
    assert Solid(DOT, Sep);
  }

  /** The segments of the result are the ones held, and it is never rooted. */
  lemma NormalizedSegments(p: string)
    ensures Segments(Normalized(p)) == Held(Segments(p)) && !Rooted(Normalized(p))
  {
    SegsSolid(Body(p), Sep, []);
    HeldSolid(Segments(p));
    if Held(Segments(p)) != [] { JoinedSegments(Held(Segments(p))); }
  }

  // ---------------------------------------------------------------- meaning is kept

  lemma LedHeld(segs: seq<string>)
    requires AllSolid(segs, Sep)
    ensures Led(Held(segs)) == Led(segs) <==> !StartsWithDrive(Led(segs))
  {
    var pl := Led(segs);
    LedProper(segs);
    if StartsWithDrive(pl) {
      LedDriveListing(pl);
    } else {
      LedListing(pl);
      DotLeadsNowhere();
      if Listing(pl) == [] { assert pl == Led([]); }
    }
  }

  lemma DotLeadsNowhere()
    ensures Led([DOT]) == Place(Here, 0, []) && Led([]) == Place(Here, 0, [])
  {
    FoldSnoc(Place(Here, 0, []), [], DOT);
    Nothing([DOT]);
  }

  /** Normalising keeps the meaning of a path if and only if it does not begin with a
      separator and the first name a relative path leads to is not a drive. */
  lemma MeaningKeptIff(p: string)
    ensures Meaning(Normalized(p)) == Meaning(p) <==> !Rooted(p) && !StartsWithDrive(Led(Segments(p)))
  {
    var segs := Segments(p);
    SegsSolid(Body(p), Sep, []);
    NormalizedSegments(p);
    LedHeld(segs);
    HeldSolid(segs);
    LedProper(Held(segs));
    FoldProper(Place(Root, 0, []), segs);
  }

  lemma {:induction false} FoldFrom(pl: Place, segs: seq<string>, name: string)
    requires name in Fold(pl, segs).names
    ensures name in pl.names || name in segs
  {
    if segs != [] && name != segs[|segs| - 1] { FoldFrom(pl, segs[..|segs| - 1], name); }
  }

  /** In particular every path that neither begins with a separator nor names a drive after
      its first segment keeps its meaning. */
  lemma MeaningKept(p: string)
    requires !Rooted(p) && forall i :: 1 <= i < |Segments(p)| ==> !IsDrive(Segments(p)[i])
    ensures Meaning(Normalized(p)) == Meaning(p)
    ensures Normalized(Normalized(p)) == Normalized(p)
  {
    SegsSolid(Body(p), Sep, []);
    NoDriveFirst(Segments(p));
    MeaningKeptIff(p);
    IdempotentIff(p);
  }

  lemma NoDriveFirst(segs: seq<string>)
    requires AllSolid(segs, Sep) && forall i :: 1 <= i < |segs| ==> !IsDrive(segs[i])
    ensures !StartsWithDrive(Led(segs))
  {
    LedProper(segs);
    if StartsWithDrive(Led(segs)) { FoldFrom(Place(Here, 0, []), segs, Led(segs).names[0]); }
  }

  // ---------------------------------------------------------------- canonical form

  ghost predicate UpsLead(segs: seq<string>) {
    forall i, j :: 0 <= j <= i < |segs| && segs[i] == DOTDOT ==> segs[j] == DOTDOT
  }

  ghost predicate NoDots(segs: seq<string>) { forall i :: 0 <= i < |segs| ==> segs[i] != DOT }

  predicate BareDrive(r: string) { |r| == 3 && IsDrive(r[..2]) && r[2] == '\\' }

  /** Single backslashes between the segments, "." only alone, ".." only as a prefix, and a
      trailing backslash only after a bare drive. */
  ghost predicate Canonical(r: string) {
    var segs := Segments(r);
    r == [] || r == DOT ||
    (segs != [] && (r == Joined(segs) || BareDrive(r)) && NoDots(segs) && UpsLead(segs))
  }

  lemma ListingShape(pl: Place)
    requires Proper(pl) && pl.start != Root
    ensures NoDots(Listing(pl)) && UpsLead(Listing(pl))
  {
    UpsAre(pl.ups);
  }

  lemma DriveText(d: string)
    requires IsDrive(d)
    ensures Joined([d]) == d && BareDrive(d + "\\")
  {
    assert (d + "\\")[..2] == d;
  }

  /** Every result is canonical. */
  lemma ResultCanonical(p: string)
    ensures Canonical(Normalized(p))
  {
    var segs := Segments(p);
    SegsSolid(Body(p), Sep, []);
    LedProper(segs);
    NormalizedSegments(p);
    ListingShape(Led(segs));
    if Led(segs).start.Drive? && |Held(segs)| == 1 { DriveText(Led(segs).start.name); }
  }

  function LeadingUps(segs: seq<string>): (k: nat)
    ensures k <= |segs|
  {
    if segs != [] && segs[0] == DOTDOT then 1 + LeadingUps(segs[1..]) else 0
  }

  lemma {:induction false} LeadingUpsSplit(segs: seq<string>)
    ensures var k := LeadingUps(segs);
            (forall i :: 0 <= i < k ==> segs[i] == DOTDOT) && (k < |segs| ==> segs[k] != DOTDOT)
  {
    if segs != [] && segs[0] == DOTDOT {
      LeadingUpsSplit(segs[1..]);
      assert forall i :: 1 <= i < |segs| ==> segs[i] == segs[1..][i - 1];
    }
  }

  /** The place that a canonical list of segments stands for. */
  ghost function Reading(segs: seq<string>): Place {
    if segs != [] && IsDrive(segs[0]) then Place(Drive(segs[0]), 0, segs[1..])
    else Place(Here, LeadingUps(segs), segs[LeadingUps(segs)..])
  }

  lemma ReadingLists(segs: seq<string>)
    requires AllSolid(segs, Sep) && NoDots(segs) && UpsLead(segs)
    ensures Proper(Reading(segs)) && Listing(Reading(segs)) == segs && !StartsWithDrive(Reading(segs))
  {
    var k := LeadingUps(segs);
    LeadingUpsSplit(segs);
    UpsAre(k);
    if segs != [] && IsDrive(segs[0]) { DriveIsName(segs[0]); }
    assert Ups(k) == segs[..k];
    assert forall i :: k <= i < |segs| ==> segs[i] != DOTDOT;
  }

  lemma HeldCanonical(segs: seq<string>)
    requires AllSolid(segs, Sep) && NoDots(segs) && UpsLead(segs)
    ensures Held(segs) == segs
  {
    ReadingLists(segs);
    LedListing(Reading(segs));
  }

  lemma NormalizedDot()
    ensures Normalized([]) == [] && Normalized(DOT) == DOT
  {
    DotLeadsNowhere();
    SegsOne(DOT, Sep);
    BodyOfPlain(DOT);
    assert Ups(0) + [] == [];
  }

  /** The fixed points: canonical paths other than a drive without its backslash. */
  lemma FixedIff(r: string)
    ensures Normalized(r) == r <==> Canonical(r) && !IsDrive(r)
  {
    ResultCanonical(r);
    if IsDrive(r) { DriveSegments(r); }
    if Canonical(r) && !IsDrive(r) { CanonicalIsFixed(r); }
  }

  lemma CanonicalIsFixed(r: string)
    requires Canonical(r) && !IsDrive(r)
    ensures Normalized(r) == r
  {
    if r == [] || r == DOT {
      NormalizedDot();
    } else {
      var segs := Segments(r);
      SegsSolid(Body(r), Sep, []);
      LedProper(segs);
      HeldCanonical(segs);
      if BareDrive(r) {
        DriveSegments(r[..2]);
        assert r == r[..2] + "\\";
      }
    }
  }

  lemma DriveSegments(d: string)
    requires IsDrive(d)
    ensures Segments(d) == [d] && Segments(d + "\\") == [d] && Joined([d]) == d
    ensures Normalized(d) == d + "\\"
  {
    DriveIsName(d);
    DriveText(d);
    JoinedSegments([d]);
    assert [d][1..] == [];
  }

  /** Normalising twice is normalising once, except when the result is a drive that was not
      the first segment. */
  lemma IdempotentIff(p: string)
    ensures Normalized(Normalized(p)) == Normalized(p) <==>
            !(StartsWithDrive(Led(Segments(p))) && |Led(Segments(p)).names| == 1)
  {
    var segs := Segments(p);
    var r := Normalized(p);
    ResultCanonical(p);
    FixedIff(r);
    NormalizedSegments(p);
    SegsSolid(Body(p), Sep, []);
    LedProper(segs);
    if IsDrive(r) {
      DriveSegments(r);
      HeldIsDrive(segs, r);
    }
    if StartsWithDrive(Led(segs)) && |Led(segs).names| == 1 { ResultIsDrive(p); }
  }

  lemma ResultIsDrive(p: string)
    requires StartsWithDrive(Led(Segments(p))) && |Led(Segments(p)).names| == 1
    ensures IsDrive(Normalized(p))
  {
    var d := Led(Segments(p)).names[0];
    assert Listing(Led(Segments(p))) == [d];
    DriveText(d);
  }

  lemma HeldIsDrive(segs: seq<string>, d: string)
    requires AllSolid(segs, Sep) && Held(segs) == [d] && IsDrive(d) && !Led(segs).start.Drive?
    ensures Led(segs) == Place(Here, 0, [d])
  {
    var pl := Led(segs);
    LedProper(segs);
    UpsAre(pl.ups);
    assert Listing(pl) == [d];
    assert Listing(pl)[0] == if pl.ups > 0 then DOTDOT else pl.names[0];
    Nothing(pl.names);
  }

  lemma HiddenDriveSegments(d: string)
    requires IsDrive(d)
    ensures Segments(DOT + (['/'] + d)) == [DOT, d] && Led([DOT, d]) == Place(Here, 0, [d])
  {
    var p := DOT + (['/'] + d);
    SegsOne(DOT, Sep);
    DriveIsName(d);
    SegsOne(d, Sep);
    SegsCut(DOT, '/', d, Sep, []);
    BodyOfPlain(p);
    DotLeadsNowhere();
    LedSnoc([DOT], d);
    assert [DOT] + [d] == [DOT, d];
  }

  /** A drive that was hidden behind ".", as in "./C:", comes out, and becomes absolute on the
      second pass. */
  lemma HiddenDrive(d: string)
    requires IsDrive(d)
    ensures var p := DOT + (['/'] + d);
            Normalized(p) == d && Normalized(d) == d + "\\" && Meaning(Normalized(p)) != Meaning(p)
  {
    HiddenDriveSegments(d);
    DriveSegments(d);
    assert Listing(Place(Here, 0, [d])) == [d];
    MeaningKeptIff(DOT + (['/'] + d));
  }

  /** "\a" leads elsewhere once its separator is gone. */
  lemma BackslashLosesMeaning()
    ensures Meaning(Normalized("\\a")) != Meaning("\\a")
  {
    RootedLosesMeaning("\\a");
  }

  lemma RootedLosesMeaning(p: string)
    requires Rooted(p)
    ensures Meaning(Normalized(p)) != Meaning(p)
  {
    MeaningKeptIff(p);
  }

  /** Paths that mean the same have the same normal form, up to "." for the empty path. */
  lemma SameMeaningSameForm(p: string, q: string)
    requires !Rooted(p) && !Rooted(q) && Meaning(p) == Meaning(q)
    ensures Normalized(p) == Normalized(q) || {Normalized(p), Normalized(q)} == {[], DOT}
  {
    if Listing(Meaning(p)) == [] { assert Joined([DOT]) == DOT; }
  }

  // ---------------------------------------------------------------- the loop

  /** What the loop keeps in its variables after the segments `seen`. */
  ghost predicate Keeps(p: string, seen: seq<string>, segments: seq<(nat, nat)>, abs: bool, startsWithDot: bool) {
    && InRange(p, segments) && AllSolid(seen, Sep)
    && Texts(p, segments) == Held(seen)
    && abs == Led(seen).start.Drive?
    && startsWithDot == (Listing(Led(seen)) == [] && EndsInDot(seen))
  }

  lemma FirstSegment(w: string)
    requires Solid(w, Sep)
    ensures Held([w]) == [w] && Led([w]).start.Drive? == IsDrive(w)
    ensures Listing(Led([w])) == [] <==> w == DOT
  {
    if IsDrive(w) {
      assert [w][1..] == [];
      DriveIsName(w);
    } else {
      FoldSnoc(Place(Here, 0, []), [], w);
      Nothing([w]);
      assert Ups(0) == [] && Ups(1) == [DOTDOT];
    }
  }

  lemma DotSegment(seen: seq<string>)
    requires seen != [] && AllSolid(seen, Sep)
    ensures Led(seen + [DOT]) == Led(seen)
    ensures Held(seen + [DOT]) == if Held(seen) == [] then [DOT] else Held(seen)
  {
    LedSnoc(seen, DOT);
  }

  lemma NameSegment(seen: seq<string>, w: string)
    requires seen != [] && AllSolid(seen, Sep) && Name(w)
    ensures Listing(Led(seen + [w])) == Listing(Led(seen)) + [w] && Led(seen + [w]).start == Led(seen).start
  {
    LedSnoc(seen, w);
    LedProper(seen);
    Regroup(if Led(seen).start.Drive? then [Led(seen).start.name] else Ups(Led(seen).ups), Led(seen).names, [w]);
  }

  /** What ".." does to the listing. */
  function Upped(l: seq<string>, abs: bool): seq<string> {
    if l == [] || l[|l| - 1] == DOTDOT then l + [DOTDOT] else if !abs || |l| > 1 then l[..|l| - 1] else l
  }

  lemma UpSegment(seen: seq<string>)
    requires seen != [] && AllSolid(seen, Sep)
    ensures Led(seen + [DOTDOT]).start == Led(seen).start
    ensures Listing(Led(seen + [DOTDOT])) == Upped(Listing(Led(seen)), Led(seen).start.Drive?)
  {
    LedSnoc(seen, DOTDOT);
    LedProper(seen);
    var pl := Led(seen);
    var l := Listing(pl);
    UpsAre(pl.ups);
    if pl.names != [] {
      assert l[|l| - 1] == pl.names[|pl.names| - 1];
      assert l[..|l| - 1] == Listing(pl.(names := pl.names[..|pl.names| - 1]));
    } else {
      Nothing(Ups(pl.ups));
      Nothing(Ups(pl.ups + 1));
    }
  }

  /** The block that runs at the end of the segment p[start..end]. */
  method EndSegment(p: string, start: nat, end: nat, first: bool, abs: bool, startsWithDot: bool,
                    segments: seq<(nat, nat)>, ghost seen: seq<string>)
    returns (abs': bool, startsWithDot': bool, segments': seq<(nat, nat)>)
    requires start <= end <= |p| && Solid(p[start..end], Sep)
    requires first == (seen == []) && Keeps(p, seen, segments, abs, startsWithDot)
    ensures Keeps(p, seen + [p[start..end]], segments', abs', startsWithDot')
  {
    abs', startsWithDot', segments' := abs, startsWithDot, segments;
    var w := p[start..end];
    if first {
      KeepsFirst(p, start, end, segments, abs, startsWithDot);
      abs' := IsDrive(w);
      segments' := segments + [(start, end - start)];
      startsWithDot' := !abs' && w == DOT;
    } else if w == DOT {
      KeepsDot(p, seen, start, end, segments, abs, startsWithDot);
      if segments == [] {
        segments' := segments + [(start, end - start)];
        startsWithDot' := true;
      }
    } else {
      segments', startsWithDot' := LaterSegment(p, start, end, abs, startsWithDot, segments, seen);
    }
  }

  lemma KeepsFirst(p: string, start: nat, end: nat, segments: seq<(nat, nat)>, abs: bool, startsWithDot: bool)
    requires start <= end <= |p| && Solid(p[start..end], Sep) && Keeps(p, [], segments, abs, startsWithDot)
    ensures var w := p[start..end];
            Keeps(p, [] + [w], segments + [(start, end - start)], IsDrive(w), !IsDrive(w) && w == DOT)
  {
    var w := p[start..end];
    TextsPush(p, segments, start, end);
    FirstSegment(w);
    assert Held([]) == [] by { DotLeadsNowhere(); Nothing<string>([]); }
    Nothing([w]);
  }

  lemma KeepsDot(p: string, seen: seq<string>, start: nat, end: nat, segments: seq<(nat, nat)>, abs: bool,
                 startsWithDot: bool)
    requires start <= end <= |p| && p[start..end] == DOT && seen != [] && Keeps(p, seen, segments, abs, startsWithDot)
    ensures Keeps(p, seen + [DOT], if segments == [] then segments + [(start, end - start)] else segments,
                  abs, segments == [] || startsWithDot)
  {
    DotSegment(seen);
    TextsPush(p, segments, start, end);
    Nothing([DOT]);
    assert Solid(DOT, Sep);
  }

  /** A segment other than the first and other than "." */
  method LaterSegment(p: string, start: nat, end: nat, abs: bool, startsWithDot: bool,
                segments: seq<(nat, nat)>, ghost seen: seq<string>)
    returns (segments': seq<(nat, nat)>, startsWithDot': bool)
    requires start <= end <= |p| && Solid(p[start..end], Sep) && p[start..end] != DOT
    requires seen != [] && Keeps(p, seen, segments, abs, startsWithDot)
    ensures Keeps(p, seen + [p[start..end]], segments', abs, startsWithDot')
  {
    var w := p[start..end];
    segments', startsWithDot' := segments, startsWithDot;
    if startsWithDot {
      segments', startsWithDot' := [], false;
    }
    assert Texts(p, segments') == Listing(Led(seen));
    if w == DOTDOT {
      UpSegment(seen);
      segments' := GoUp(p, start, end, abs, segments');
    } else {
      NameSegment(seen, w);
      TextsPush(p, segments', start, end);
      segments' := segments' + [(start, end - start)];
    }
  }

  method GoUp(p: string, start: nat, end: nat, abs: bool, segments: seq<(nat, nat)>) returns (r: seq<(nat, nat)>)
    requires start <= end <= |p| && p[start..end] == DOTDOT && InRange(p, segments)
    ensures InRange(p, r) && Texts(p, r) == Upped(Texts(p, segments), abs)
  {
    var n := |segments|;
    if n == 0 || p[segments[n - 1].0..segments[n - 1].0 + segments[n - 1].1] == DOTDOT {
      TextsPush(p, segments, start, end);
      r := segments + [(start, end - start)];
    } else if !abs || n > 1 {
      TextsPop(p, segments);
      r := segments[..n - 1];
    } else {
      r := segments;
    }
  }

  /** The segments finished by position i, and those of the rest, make up the path's. */
  ghost predicate Cut(p: string, from: nat, seen: seq<string>, segStart: int, i: nat)
    requires from <= i <= |p| + 1 && from <= |p| && -1 <= segStart <= i
  {
    if i <= |p| then
      (segStart < 0 || (from <= segStart < i && Free(p[segStart..i], Sep)))
      && Segs(p[from..], Sep, []) == seen + Segs(p[i..], Sep, if segStart < 0 then [] else p[segStart..i])
    else
      Segs(p[from..], Sep, []) == seen
  }

  /** `NormalizeImpl`: collects the segments to keep and writes them out. */
  method NormalizeImpl(p: string) returns (result: string)
    ensures result == Normalized(p)
  {
    if p == [] {
      NormalizedDot();
      return p;
    }
    var segments, abs := KeptSegments(p, if HasUncPrefix(p) then 4 else 0);
    assert p[0..] == p;
    result := WriteSegments(p, segments);
    if abs && |segments| == 1 {
      result := result + "\\";
    }
  }

  /** What holds before each character: the segments seen and the variables that keep them. */
  ghost predicate Midway(p: string, from: nat, seen: seq<string>, segStart: int, i: nat, first: bool, abs: bool,
                         startsWithDot: bool, kept: seq<(nat, nat)>)
    requires from <= i <= |p| + 1 && from <= |p| && -1 <= segStart <= i
  {
    Cut(p, from, seen, segStart, i) && first == (seen == []) && Keeps(p, seen, kept, abs, startsWithDot)
  }

  /** The main loop, from position `from`. */
  method KeptSegments(p: string, from: nat) returns (segments: seq<(nat, nat)>, abs: bool)
    requires from <= |p|
    ensures var segs := Segs(p[from..], Sep, []);
            InRange(p, segments) && Texts(p, segments) == Held(segs) && abs == Led(segs).start.Drive?
  {
    segments, abs := [], false;
    var segStart, i := -1, from;
    var first, startsWithDot := true, false;
    ghost var seen: seq<string> := [];
    StartKeeps(p);
    StartCut(p, from);
    while i <= |p|
      invariant from <= i <= |p| + 1 && -1 <= segStart <= i
      invariant Midway(p, from, seen, segStart, i, first, abs, startsWithDot, segments)
    {
      var next := i + 1;
      if segStart >= 0 && (i == |p| || p[i] == '/' || p[i] == '\\') {
        segStart, first, abs, startsWithDot, segments, seen :=
          SegmentEnds(p, from, segStart, i, next, first, abs, startsWithDot, segments, seen);
      } else {
        segStart := WithinSegment(p, from, segStart, i, next, seen, first, abs, startsWithDot, segments);
      }
      i := next;
    }
  }

  method SegmentEnds(p: string, from: nat, segStart: nat, i: nat, ghost next: nat, first: bool, abs: bool,
                     startsWithDot: bool, segments: seq<(nat, nat)>, ghost seen: seq<string>)
    returns (segStart': int, first': bool, abs': bool, startsWithDot': bool, segments': seq<(nat, nat)>,
             ghost seen': seq<string>)
    requires from <= i <= |p| && next == i + 1 && segStart <= i && (i < |p| ==> Sep(p[i]))
    requires Midway(p, from, seen, segStart, i, first, abs, startsWithDot, segments)
    ensures segStart' == -1 && Midway(p, from, seen', segStart', next, first', abs', startsWithDot', segments')
  {
    CutEnd(p, from, seen, segStart, i);
    abs', startsWithDot', segments' := EndSegment(p, segStart, i, first, abs, startsWithDot, segments, seen);
    seen' := seen + [p[segStart..i]];
    segStart', first' := -1, false;
  }

  /** A character that ends no segment may start one. */
  method WithinSegment(p: string, from: nat, segStart: int, i: nat, ghost next: nat, ghost seen: seq<string>,
                       ghost first: bool,
                       ghost abs: bool, ghost startsWithDot: bool, ghost segments: seq<(nat, nat)>) returns (r: int)
    requires from <= i <= |p| && next == i + 1 && -1 <= segStart <= i && (segStart >= 0 ==> i < |p| && !Sep(p[i]))
    requires Midway(p, from, seen, segStart, i, first, abs, startsWithDot, segments)
    ensures -1 <= r <= i && Midway(p, from, seen, r, next, first, abs, startsWithDot, segments)
  {
    r := segStart;
    if segStart == -1 {
      CutStep(p, from, seen, i);
      if i < |p| && p[i] != '/' && p[i] != '\\' {
        r := i;
      }
    } else {
      CutGrows(p, from, seen, segStart, i);
    }
  }

  lemma StartKeeps(p: string)
    ensures Keeps(p, [], [], false, false)
  {
    DotLeadsNowhere();
    Nothing<string>([]);
    assert Ups(0) == [];
  }

  lemma StartCut(p: string, from: nat)
    requires from <= |p|
    ensures Cut(p, from, [], -1, from)
  {
    Nothing(Segs(p[from..], Sep, []));
  }

  /** One character while no segment is open. */
  lemma CutStep(p: string, from: nat, seen: seq<string>, i: nat)
    requires from <= i <= |p| && Cut(p, from, seen, -1, i)
    ensures Cut(p, from, seen, if i < |p| && !Sep(p[i]) then i else -1, i + 1)
  {
    Nothing(seen);
    if i < |p| {
      assert p[i..][1..] == p[i + 1..];
      assert p[i..i + 1] == [p[i]];
      Nothing([p[i]]);
      Nothing(Segs(p[i + 1..], Sep, []));
    }
  }

  lemma CutGrows(p: string, from: nat, seen: seq<string>, segStart: nat, i: nat)
    requires from <= segStart < i < |p| && !Sep(p[i]) && Cut(p, from, seen, segStart, i)
    ensures Cut(p, from, seen, segStart, i + 1)
  {
    assert p[i..][1..] == p[i + 1..];
    assert p[segStart..i + 1] == p[segStart..i] + [p[i]];
  }

  lemma CutEnd(p: string, from: nat, seen: seq<string>, segStart: nat, i: nat)
    requires from <= segStart < i <= |p| && (i < |p| ==> Sep(p[i])) && Cut(p, from, seen, segStart, i)
    ensures Solid(p[segStart..i], Sep) && Cut(p, from, seen + [p[segStart..i]], -1, i + 1)
  {
    var w := p[segStart..i];
    if i < |p| {
      assert p[i..][1..] == p[i + 1..];
      Regroup(seen, [w], Segs(p[i + 1..], Sep, []));
    }
  }

  method WriteSegments(p: string, segments: seq<(nat, nat)>) returns (r: string)
    requires InRange(p, segments)
    ensures r == if segments == [] then [] else Joined(Texts(p, segments))
  {
    r := [];
    ghost var all := Texts(p, segments);
    var k := 0;
    while k < |segments|
      invariant k <= |segments| && r == JoinedUpTo(all, k)
    {
      var next := k + 1;
      JoinedNext(all, k, next);
      var (start, len) := segments[k];
      var s := p[start..start + len];
      r := if k == 0 then s else r + (['\\'] + s);
      k := next;
    }
    assert all[..|all|] == all;
  }

  ghost function JoinedUpTo(all: seq<string>, k: nat): string
    requires k <= |all|
  {
    if k == 0 then [] else Joined(all[..k])
  }

  lemma JoinedNext(all: seq<string>, k: nat, next: nat)
    requires k < |all| && next == k + 1
    ensures JoinedUpTo(all, next) == if k == 0 then all[k] else JoinedUpTo(all, k) + (['\\'] + all[k])
  {
    assert all[..next][..k] == all[..k];
  }
}
