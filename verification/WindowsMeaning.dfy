/** Where a Windows path leads in a directory tree with drives, before and after normalising. */
module WindowsMeaning {
  import opened Basics
  import opened PathSegments
  import opened WindowsPath

  /** Every drive has a root of its own, above which nothing lies. */
  ghost predicate LawfulDrives<Node(!new)>(t: Tree<Node>, drive: string -> Node) {
    Lawful(t) && forall d :: t.parent(drive(d)) == drive(d)
  }

  /** Where a path leads from `here`: a first separator goes to the root of the current drive,
      a drive in front to that drive's root. */
  function Leads<Node>(t: Tree<Node>, drive: string -> Node, here: Node, p: string): Node {
    var segs := Segments(p);
    if Rooted(p) then Resolve(t, t.root, segs)
    else if segs != [] && IsDrive(segs[0]) then Resolve(t, drive(segs[0]), segs[1..])
    else Resolve(t, here, segs)
  }

  function StartNode<Node>(t: Tree<Node>, drive: string -> Node, here: Node, s: Start): Node {
    match s
    case Drive(d) => drive(d)
    case Root => t.root
    case Here => here
  }

  function NodeOf<Node>(t: Tree<Node>, start: Node, pl: Place): Node { Resolve(t, start, Ups(pl.ups) + pl.names) }

  lemma ResolveSnoc<Node>(t: Tree<Node>, n: Node, segs: seq<string>, seg: string)
    ensures Resolve(t, n, segs + [seg]) == Enter(t, Resolve(t, n, segs), seg)
  {
    ResolveConcat(t, n, segs, [seg]);
  }

  lemma MovedLeads<Node(!new)>(t: Tree<Node>, start: Node, pl: Place, seg: string)
    requires Lawful(t) && Proper(pl) && Solid(seg, Sep) && (pl.start != Here ==> t.parent(start) == start)
    ensures NodeOf(t, start, Moved(pl, seg)) == Enter(t, NodeOf(t, start, pl), seg)
  {
    var ups, names := Ups(pl.ups), pl.names;
    if seg == DOTDOT {
      if names != [] {
        var init, last := names[..|names| - 1], names[|names| - 1];
        assert Name(last) && ups + names == (ups + init) + [last];
        ResolveSnoc(t, start, ups + init, last);
      } else if pl.start == Here {
        Nothing(ups);
        Nothing(Ups(pl.ups + 1));
        ResolveSnoc(t, start, ups, DOTDOT);
      }
    } else if seg != DOT {
      Regroup(ups, names, [seg]);
      ResolveSnoc(t, start, ups + names, seg);
    }
  }

  lemma {:induction false} FoldLeads<Node(!new)>(t: Tree<Node>, start: Node, pl: Place, segs: seq<string>)
    requires Lawful(t) && Proper(pl) && AllSolid(segs, Sep) && (pl.start != Here ==> t.parent(start) == start)
    ensures NodeOf(t, start, Fold(pl, segs)) == Resolve(t, NodeOf(t, start, pl), segs)
  {
    if segs != [] {
      var init, last := segs[..|segs| - 1], segs[|segs| - 1];
      FoldLeads(t, start, pl, init);
      FoldProper(pl, init);
      MovedLeads(t, start, Fold(pl, init), last);
      ResolveSnoc(t, NodeOf(t, start, pl), init, last);
      assert init + [last] == segs;
    }
  }

  /** The meaning of a path is where it leads. */
  lemma MeaningLeads<Node(!new)>(t: Tree<Node>, drive: string -> Node, here: Node, p: string)
    requires LawfulDrives(t, drive)
    ensures Leads(t, drive, here, p) == NodeOf(t, StartNode(t, drive, here, Meaning(p).start), Meaning(p))
  {
    var segs := Segments(p);
    SegsSolid(Body(p), Sep, []);
    if Rooted(p) {
      StartLeads(t, t.root, Place(Root, 0, []), segs);
    } else if segs != [] && IsDrive(segs[0]) {
      DriveIsName(segs[0]);
      StartLeads(t, drive(segs[0]), Place(Drive(segs[0]), 0, []), segs[1..]);
    } else {
      StartLeads(t, here, Place(Here, 0, []), segs);
    }
  }

  lemma StartLeads<Node(!new)>(t: Tree<Node>, start: Node, pl: Place, segs: seq<string>)
    requires Lawful(t) && Proper(pl) && AllSolid(segs, Sep) && (pl.start != Here ==> t.parent(start) == start)
    requires pl.ups == 0 && pl.names == []
    ensures Fold(pl, segs).start == pl.start
    ensures NodeOf(t, start, Fold(pl, segs)) == Resolve(t, start, segs)
  {
    FoldProper(pl, segs);
    FoldLeads(t, start, pl, segs);
    Nothing(Ups(0));
    assert NodeOf(t, start, pl) == start;
  }

  /** The result of normalising leads where the path leads, in every directory tree and from
      every place in it, unless the path begins with a separator or a drive comes out in front. */
  lemma NormalizedLeads<Node(!new)>(p: string, t: Tree<Node>, drive: string -> Node, here: Node)
    requires LawfulDrives(t, drive) && !Rooted(p) && !StartsWithDrive(Led(Segments(p)))
    ensures Leads(t, drive, here, Normalized(p)) == Leads(t, drive, here, p)
  {
    MeaningKeptIff(p);
    MeaningLeads(t, drive, here, p);
    MeaningLeads(t, drive, here, Normalized(p));
  }

  /** In particular where no segment after the first is a drive. */
  lemma PlainLeads<Node(!new)>(p: string, t: Tree<Node>, drive: string -> Node, here: Node)
    requires LawfulDrives(t, drive) && (p != [] ==> p[0] != '/' && p[0] != '\\')
    requires forall i :: 1 <= i < |Segments(p)| ==> !IsDrive(Segments(p)[i])
    ensures Leads(t, drive, here, Normalized(p)) == Leads(t, drive, here, p)
  {
    SegsSolid(Body(p), Sep, []);
    NoDriveFirst(Segments(p));
    NormalizedLeads(p, t, drive, here);
  }

  // ---------------------------------------------------------------- the tree of places

  function PlaceChild(pl: Place, name: string): Place { pl.(names := pl.names + [name]) }

  function PlaceParent(pl: Place): Place {
    if pl.names != [] then pl.(names := pl.names[..|pl.names| - 1])
    else if pl.start == Here then pl.(ups := pl.ups + 1)
    else pl
  }

  function PlaceTree(): Tree<Place> { Tree(Place(Root, 0, []), PlaceChild, PlaceParent) }

  function PlaceDrive(d: string): Place { Place(Drive(d), 0, []) }

  lemma PlaceTreeLawful()
    ensures LawfulDrives(PlaceTree(), PlaceDrive)
  {
    assert forall pl, name :: PlaceChild(pl, name).names[..|pl.names|] == pl.names;
  }

  lemma {:induction false} PlaceResolves(pl: Place, segs: seq<string>)
    ensures Resolve(PlaceTree(), pl, segs) == Fold(pl, segs)
    decreases |segs|
  {
    if segs != [] {
      var init, last := segs[..|segs| - 1], segs[|segs| - 1];
      PlaceResolves(pl, init);
      ResolveSnoc(PlaceTree(), pl, init, last);
      assert init + [last] == segs;
    }
  }

  /** In the tree of places a path leads to its meaning, so two paths mean the same if and only
      if they lead to the same node of every tree. */
  lemma LeadsToMeaning(p: string)
    ensures Leads(PlaceTree(), PlaceDrive, Place(Here, 0, []), p) == Meaning(p)
  {
    var segs := Segments(p);
    PlaceResolves(Place(Root, 0, []), segs);
    PlaceResolves(Place(Here, 0, []), segs);
    if segs != [] { PlaceResolves(PlaceDrive(segs[0]), segs[1..]); }
  }

  /** There is a tree that tells the two apart in every other case. */
  lemma OtherwiseLeadsElsewhere(p: string)
    requires Rooted(p) || StartsWithDrive(Led(Segments(p)))
    ensures LawfulDrives(PlaceTree(), PlaceDrive)
    ensures var here := Place(Here, 0, []);
            Leads(PlaceTree(), PlaceDrive, here, Normalized(p)) != Leads(PlaceTree(), PlaceDrive, here, p)
  {
    PlaceTreeLawful();
    LeadsToMeaning(p);
    LeadsToMeaning(Normalized(p));
    MeaningKeptIff(p);
  }

  // ---------------------------------------------------------------- prefixes and drives

  lemma UncPrefixIff(p: string)
    ensures HasUncPrefix(p) <==> "\\\\?\\" <= p || "\\\\.\\" <= p || "\\??\\" <= p
  {
    var a, b, c := "\\\\?\\", "\\\\.\\", "\\??\\";
    if HasUncPrefix(p) {
      assert p[..4] == [p[0], p[1], p[2], p[3]];
      assert p[..4] == a || p[..4] == b || p[..4] == c;
    }
  }

  /** The prefix does not come out. */
  lemma UncDropped(p: string)
    requires !HasUncPrefix(p)
    ensures Normalized("\\\\?\\" + p) == Normalized(p)
    ensures Normalized("\\\\.\\" + p) == Normalized(p)
    ensures Normalized("\\??\\" + p) == Normalized(p)
  {
    assert ("\\\\?\\" + p)[4..] == p;
    assert ("\\\\.\\" + p)[4..] == p;
    assert ("\\??\\" + p)[4..] == p;
  }

  /** A character and a colon are a drive exactly for the letters, and only a drive gets a
      backslash. */
  lemma DriveLetter(c: char)
    requires c != '/' && c != '\\'
    ensures Normalized([c, ':']) == if 'A' <= c <= 'Z' || 'a' <= c <= 'z' then [c, ':', '\\'] else [c, ':']
  {
    var d := [c, ':'];
    if IsDrive(d) {
      DriveSegments(d);
    } else {
      SegsOne(d, Sep);
      BodyOfPlain(d);
      FirstSegment(d);
    }
  }

  lemma {:induction false} JoinedHasNoSlash(segs: seq<string>)
    requires segs != [] && AllSolid(segs, Sep)
    ensures '/' !in Joined(segs)
  {
    var init, last := segs[..|segs| - 1], segs[|segs| - 1];
    assert Solid(last, Sep);
    if init != [] { JoinedHasNoSlash(init); }
  }

  /** Every separator that comes out is a backslash. */
  lemma NoForwardSlash(p: string)
    ensures '/' !in Normalized(p)
  {
    SegsSolid(Body(p), Sep, []);
    HeldSolid(Segments(p));
    if Held(Segments(p)) != [] { JoinedHasNoSlash(Held(Segments(p))); }
  }
}
