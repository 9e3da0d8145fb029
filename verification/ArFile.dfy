/** Writing and reading `ar` archives member by member. */
module ArFile {
  import opened Basics
  import opened Digits
  import opened ArArchive

  /** The arguments of one `AddArFileEntry` call: for content given as bytes a negative length
      stands for its own, for a file-like object the length is written as it is. */
  datatype Member = Member(name: Bytes, timestamp: int, owner: int, group: int, mode: int,
                           fileLike: bool, contentLen: int, content: Bytes)

  function Size(m: Member): int { if m.contentLen < 0 && !m.fileLike then |m.content| else m.contentLen }

  /** The fields of a `SimpleArFileEntry`. */
  datatype Entry = Entry(name: Bytes, timestamp: int, owner: int, group: int, mode: int, size: int, data: Bytes)

  function Magic(): Bytes { [0x21, 0x3C, 0x61, 0x72, 0x63, 0x68, 0x3E, 0x0A] }

  function Terminator(): Bytes { [GRAVE, NEWLINE] }

  function Columns(): seq<Col> {
    [Col(12, Ten, false), Col(6, Ten, false), Col(6, Ten, false), Col(8, Eight, true), Col(10, Ten, false)]
  }

  function TotalWidth(cols: seq<Col>): nat { if cols == [] then 0 else cols[0].width + TotalWidth(cols[1..]) }

  /** Five numeric columns that fill a header together with the name and the terminator. */
  predicate IsLayout(cols: seq<Col>) {
    |cols| == 5 && TotalWidth(cols) == 42 && forall i :: 0 <= i < |cols| ==> cols[i].width >= 2
  }

  type Layout = cols: seq<Col> | IsLayout(cols) witness Columns()

  function Numbers(m: Member): seq<int> { [m.timestamp, m.owner, m.group, m.mode, Size(m)] }

  // ---------------------------------------------------------------- the writer's bytes

  function Padding(content: Bytes): Bytes { if |content| % 2 == 1 then [NEWLINE] else [] }

  function NameColumn(name: Bytes): Bytes { Column(name + [SLASH], NAME_WIDTH) }

  function MemberBytes(m: Member, l: Layout): Bytes {
    NameColumn(m.name) + (WriteNumbers(Numbers(m), l) + (Terminator() + (m.content + Padding(m.content))))
  }

  function Written(ms: seq<Member>, l: Layout): Bytes {
    if ms == [] then [] else MemberBytes(ms[0], l) + Written(ms[1..], l)
  }

  /** The members as `AddArFileEntry` lays them out. */
  function StandardBytes(ms: seq<Member>): Bytes { Written(ms, Columns()) }

  // ---------------------------------------------------------------- the reader

  function ReadName(column: Bytes): Bytes {
    var t := Strip(column, IsTextSpace);
    if t != [] && t[|t| - 1] == SLASH then t[..|t| - 1] else t
  }

  datatype Got = Got(entry: Entry, rest: Bytes, odd: bool)

  /** `f.read(n)`: a negative number asks for everything. */
  function TakeInt(s: Bytes, n: int): Bytes { if n < 0 then s else Take(s, n) }

  function DropInt(s: Bytes, n: int): Bytes { if n < 0 then [] else Drop(s, n) }

  function EntryOf(name: Bytes, ns: seq<int>, body: Bytes): (g: Got)
    requires |ns| == 5
    ensures |g.rest| <= |body|
  {
    var data := TakeInt(body, ns[4]);
    Got(Entry(name, ns[0], ns[1], ns[2], ns[3], ns[4], data), DropInt(body, ns[4]), |data| % 2 == 1)
  }

  /** `SimpleArFileEntry.__init__`; None stands for the exceptions it can raise. */
  function ReadEntry(s: Bytes, l: Layout): (r: Option<Got>)
    ensures r.Some? ==> |r.value.rest| < |s|
  {
    ReadNumbersShrinks(Drop(s, NAME_WIDTH), l);
    var row := ReadNumbers(Drop(s, NAME_WIDTH), l);
    if row.None? || Take(row.value.rest, 2) != Terminator() then None
    else Some(EntryOf(ReadName(Take(s, NAME_WIDTH)), row.value.ns, Drop(row.value.rest, 2)))
  }

  lemma {:induction false} ReadNumbersShrinks(s: Bytes, cols: seq<Col>)
    ensures var r := ReadNumbers(s, cols); r.Some? ==> |r.value.rest| <= |s|
    decreases |cols|
  {
    if cols != [] { ReadNumbersShrinks(Drop(s, cols[0].width), cols[1..]); }
  }

  /** Members start at even positions. */
  function Aligned(rest: Bytes, odd: bool): Bytes { if odd then Drop(rest, 1) else rest }

  /** All entries up to the end, where fewer than 60 bytes are left. */
  function ReadAll(rest: Bytes, odd: bool, l: Layout): Option<seq<Entry>>
    decreases |rest|
  {
    var s := Aligned(rest, odd);
    if |s| < HEADER_SIZE then Some([])
    else
      var r := ReadEntry(s, l);
      if r.None? then None
      else
        var more := ReadAll(r.value.rest, r.value.odd, l);
        if more.None? then None else Some([r.value.entry] + more.value)
  }

  function ReadArchiveAs(bytes: Bytes, l: Layout): Option<seq<Entry>> {
    if Take(bytes, 8) != Magic() then None else ReadAll(Drop(bytes, 8), false, l)
  }

  function ReadArchive(bytes: Bytes): Option<seq<Entry>> { ReadArchiveAs(bytes, Columns()) }

  // ---------------------------------------------------------------- the name column

  predicate NameFits(name: Bytes) { |name| <= 15 && (name == [] || !IsTextSpace(name[0])) }

  lemma NameBack(name: Bytes, u: Bytes)
    requires NameFits(name)
    ensures var s := NameColumn(name) + u; ReadName(Take(s, NAME_WIDTH)) == name && Drop(s, NAME_WIDTH) == u
  {
    var t := name + [SLASH];
    ColumnLength(t, NAME_WIDTH);
    TakeDrop(NameColumn(name), u);
    StripColumn(t, NAME_WIDTH, IsTextSpace);
    assert t[..|t| - 1] == name;
  }

  /** A name that does not fit comes back changed, or leaves a slash in the next column. */
  lemma NameLost(name: Bytes, u: Bytes)
    requires !NameFits(name)
    ensures var s := NameColumn(name) + u;
            ReadName(Take(s, NAME_WIDTH)) == name ==> Drop(s, NAME_WIDTH) == [SLASH] + u
  {
    var t := name + [SLASH];
    ColumnLength(t, NAME_WIDTH);
    if |name| <= 15 {
      TakeDrop(NameColumn(name), u);
      StripColumn(t, NAME_WIDTH, IsTextSpace);
      assert |StripLeft(t, IsTextSpace)| <= |t|;
      ShorterIfStripped(t, IsTextSpace);
    } else if |name| == NAME_WIDTH {
      assert t + u == name + ([SLASH] + u);
      TakeDrop(name, [SLASH] + u);
    } else {
      assert |Take(t + u, NAME_WIDTH)| == NAME_WIDTH;
    }
  }

  lemma ShorterIfStripped(t: Bytes, space: Byte -> bool)
    requires t != [] && space(t[0])
    ensures |StripLeft(t, space)| < |t|
  {
  }

  lemma {:induction false} StripRightKeepsFirst(s: Bytes, space: Byte -> bool)
    requires s != [] && !space(s[0])
    ensures StripRight(s, space) != [] && StripRight(s, space)[0] == s[0]
  {
    if space(s[|s| - 1]) { StripRightKeepsFirst(s[..|s| - 1], space); }
  }

  lemma SlashIsNoNumber(u: Bytes, cols: seq<Col>)
    requires cols != [] && cols[0].width > 0
    ensures ReadNumbers([SLASH] + u, cols).None?
  {
    var t := Take([SLASH] + u, cols[0].width);
    StripRightKeepsFirst(t, IsSpace);
    assert !IsDigit(SLASH, cols[0].base);
  }

  // ---------------------------------------------------------------- one member

  /** The name is at most 15 bytes and does not begin with white space, and every number
      fits its column. */
  predicate Fits(m: Member, l: Layout) { NameFits(m.name) && NumbersFit(Numbers(m), l) }

  function Recorded(m: Member): Entry {
    Entry(m.name, m.timestamp, m.owner, m.group, m.mode, Size(m), m.content)
  }

  /** The reader takes everything that is left. */
  predicate Oversized(m: Member) { Size(m) < 0 || Size(m) > |m.content| }

  /** The content comes back when the size says how long it is, and also when it asks for more
      and nothing follows. */
  lemma ContentBackIff(m: Member, t: Bytes)
    ensures var g := EntryOf(m.name, Numbers(m), m.content + (Padding(m.content) + t));
            && (g.entry == Recorded(m) <==>
                Size(m) == |m.content| || (Oversized(m) && Padding(m.content) + t == []))
            && (Size(m) == |m.content| ==> g == Got(Recorded(m), Padding(m.content) + t, |m.content| % 2 == 1))
            && (g.entry == Recorded(m) && Size(m) != |m.content| ==> g.rest == [])
  {
    var after := Padding(m.content) + t;
    TakeDrop(m.content, after);
    var data := TakeInt(m.content + after, Size(m));
    assert Oversized(m) && after != [] ==> |data| > |m.content|;
    assert 0 <= Size(m) < |m.content| ==> |data| < |m.content|;
    assert after == [] ==> m.content + after == m.content;
  }

  lemma MemberBytesThen(m: Member, t: Bytes, l: Layout)
    ensures MemberBytes(m, l) + t ==
            NameColumn(m.name) + (WriteNumbers(Numbers(m), l) + (Terminator() + (m.content + (Padding(m.content) + t))))
  {
    Regroup5(NameColumn(m.name), WriteNumbers(Numbers(m), l), Terminator(), m.content, Padding(m.content), t);
  }

  lemma Regroup5(a: Bytes, b: Bytes, c: Bytes, d: Bytes, e: Bytes, t: Bytes)
    ensures (a + (b + (c + (d + e)))) + t == a + (b + (c + (d + (e + t))))
  {
  }

  lemma MemberBack(m: Member, t: Bytes, l: Layout)
    requires Fits(m, l)
    ensures ReadEntry(MemberBytes(m, l) + t, l) ==
            Some(EntryOf(m.name, Numbers(m), m.content + (Padding(m.content) + t)))
  {
    var body := m.content + (Padding(m.content) + t);
    var u := Terminator() + body;
    MemberBytesThen(m, t, l);
    NameBack(m.name, WriteNumbers(Numbers(m), l) + u);
    NumbersBack(Numbers(m), l, u);
    TakeDrop(Terminator(), body);
  }

  lemma MemberLost(m: Member, t: Bytes, l: Layout)
    requires !Fits(m, l)
    ensures var r := ReadEntry(MemberBytes(m, l) + t, l); r.Some? ==> r.value.entry != Recorded(m)
  {
    var u := Terminator() + (m.content + (Padding(m.content) + t));
    var w := WriteNumbers(Numbers(m), l) + u;
    MemberBytesThen(m, t, l);
    if NameFits(m.name) {
      NameBack(m.name, w);
      NumbersBack(Numbers(m), l, u);
      if ReadEntry(MemberBytes(m, l) + t, l).Some? { EntryNumbers(MemberBytes(m, l) + t, l); }
    } else {
      NameLost(m.name, w);
      SlashIsNoNumber(w, l);
    }
  }

  /** The numeric fields of an entry are the row of numbers that was read. */
  lemma EntryNumbers(s: Bytes, l: Layout)
    requires ReadEntry(s, l).Some?
    ensures var row, e := ReadNumbers(Drop(s, NAME_WIDTH), l), ReadEntry(s, l).value.entry;
            row.Some? && row.value.ns == [e.timestamp, e.owner, e.group, e.mode, e.size]
  {
    var ns := ReadNumbers(Drop(s, NAME_WIDTH), l).value.ns;
    assert ns == [ns[0], ns[1], ns[2], ns[3], ns[4]];
  }

  // ---------------------------------------------------------------- whole archives

  lemma {:induction false} NumbersLength(ns: seq<int>, cols: seq<Col>)
    requires |ns| == |cols|
    ensures |WriteNumbers(ns, cols)| >= TotalWidth(cols)
    decreases |ns|
  {
    if ns != [] {
      ColumnLength(NumberText(ns[0], cols[0]), cols[0].width);
      NumbersLength(ns[1..], cols[1..]);
    }
  }

  lemma MemberLength(m: Member, l: Layout)
    ensures |MemberBytes(m, l)| >= HEADER_SIZE
  {
    ColumnLength(m.name + [SLASH], NAME_WIDTH);
    NumbersLength(Numbers(m), l);
  }

  function AllRecorded(ms: seq<Member>): seq<Entry> {
    if ms == [] then [] else [Recorded(ms[0])] + AllRecorded(ms[1..])
  }

  /** The size column is the content's length, or asks for more where the archive ends with it. */
  predicate SizeFits(ms: seq<Member>, i: nat)
    requires i < |ms|
  {
    || Size(ms[i]) == |ms[i].content|
    || (i == |ms| - 1 && Oversized(ms[i]) && |ms[i].content| % 2 == 0)
  }

  predicate AllFit(ms: seq<Member>, l: Layout) { forall i :: 0 <= i < |ms| ==> Fits(ms[i], l) && SizeFits(ms, i) }

  lemma PaddingSkipped(content: Bytes, t: Bytes)
    ensures Aligned(Padding(content) + t, |content| % 2 == 1) == t
  {
    TakeDrop(Padding(content), t);
  }

  lemma ReadAllAligned(rest: Bytes, odd: bool, l: Layout)
    ensures ReadAll(rest, odd, l) == ReadAll(Aligned(rest, odd), false, l)
  {
  }

  lemma WrittenNothing(ms: seq<Member>, l: Layout)
    ensures Written(ms, l) == [] <==> ms == []
  {
    if ms != [] { MemberLength(ms[0], l); }
  }

  lemma {:induction false} MembersBackIff(ms: seq<Member>, l: Layout)
    ensures ReadAll(Written(ms, l), false, l) == Some(AllRecorded(ms)) <==> AllFit(ms, l)
  {
    if ms != [] {
      var m, t := ms[0], Written(ms[1..], l);
      MemberLength(m, l);
      WrittenNothing(ms[1..], l);
      if !Fits(m, l) {
        MemberLost(m, t, l);
        FirstLost(ms, l);
      } else {
        MembersBackIff(ms[1..], l);
        var g := EntryOf(m.name, Numbers(m), m.content + (Padding(m.content) + t));
        MemberBack(m, t, l);
        ContentBackIff(m, t);
        if g.entry != Recorded(m) {
          assert !SizeFits(ms, 0);
          FirstLost(ms, l);
        } else if Size(m) == |m.content| {
          PaddingSkipped(m.content, t);
          ReadAllAligned(Padding(m.content) + t, |m.content| % 2 == 1, l);
          WholeFirst(ms, g, l);
        } else {
          OnlyOne(ms, g, l);
        }
      }
    }
  }

  lemma {:induction false} WholeFirst(ms: seq<Member>, g: Got, l: Layout)
    requires ms != [] && Fits(ms[0], l) && SizeFits(ms, 0) && |Written(ms, l)| >= HEADER_SIZE
    requires ReadEntry(Written(ms, l), l) == Some(g) && g.entry == Recorded(ms[0])
    requires ReadAll(g.rest, g.odd, l) == ReadAll(Written(ms[1..], l), false, l)
    requires ReadAll(Written(ms[1..], l), false, l) == Some(AllRecorded(ms[1..])) <==> AllFit(ms[1..], l)
    ensures ReadAll(Written(ms, l), false, l) == Some(AllRecorded(ms)) <==> AllFit(ms, l)
  {
    ReadAllStep(Written(ms, l), g, AllRecorded(ms[1..]), l);
    AllFitStep(ms, l);
  }

  lemma NothingLeft(odd: bool, l: Layout)
    ensures ReadAll([], odd, l) == Some([])
  {
  }

  lemma OnlyFits(m: Member, l: Layout)
    requires Fits(m, l) && SizeFits([m], 0)
    ensures AllFit([m], l) && AllRecorded([m]) == [Recorded(m)] + []
  {
  }

  lemma {:induction false} OnlyOne(ms: seq<Member>, g: Got, l: Layout)
    requires |ms| == 1 && Fits(ms[0], l) && SizeFits(ms, 0) && |Written(ms, l)| >= HEADER_SIZE
    requires ReadEntry(Written(ms, l), l) == Some(g) && g.entry == Recorded(ms[0]) && g.rest == []
    ensures ReadAll(Written(ms, l), false, l) == Some(AllRecorded(ms)) <==> AllFit(ms, l)
  {
    var m := ms[0];
    assert ms == [m];
    OnlyFits(m, l);
    NothingLeft(g.odd, l);
    ReadAllStep(Written(ms, l), g, [], l);
  }

  /** The entries of an archive are its first entry and those of the rest. */
  lemma {:induction false} ReadAllStep(s: Bytes, g: Got, entries: seq<Entry>, l: Layout)
    requires |s| >= HEADER_SIZE && ReadEntry(s, l) == Some(g)
    ensures ReadAll(s, false, l) == Some([g.entry] + entries) <==> ReadAll(g.rest, g.odd, l) == Some(entries)
  {
    var more := ReadAll(g.rest, g.odd, l);
    assert more.Some? ==> ([g.entry] + more.value)[1..] == more.value;
    assert ([g.entry] + entries)[1..] == entries;
  }

  lemma AllFitStep(ms: seq<Member>, l: Layout)
    requires ms != [] && Fits(ms[0], l) && SizeFits(ms, 0)
    ensures AllFit(ms, l) <==> AllFit(ms[1..], l)
  {
    var rest := ms[1..];
    assert forall i :: 0 <= i < |rest| ==> rest[i] == ms[i + 1];
    if AllFit(ms, l) {
      forall i | 0 <= i < |rest| ensures Fits(rest[i], l) && SizeFits(rest, i) { assert SizeFits(ms, i + 1); }
    }
    if AllFit(rest, l) {
      forall i | 0 <= i < |ms| ensures Fits(ms[i], l) && SizeFits(ms, i) {
        if i > 0 { assert ms[i] == rest[i - 1] && SizeFits(rest, i - 1); }
      }
    }
  }

  lemma {:induction false} FirstLost(ms: seq<Member>, l: Layout)
    requires ms != [] && |Written(ms, l)| >= HEADER_SIZE
    requires ReadEntry(Written(ms, l), l).Some? ==> ReadEntry(Written(ms, l), l).value.entry != Recorded(ms[0])
    ensures ReadAll(Written(ms, l), false, l) != Some(AllRecorded(ms))
  {
    var r := ReadAll(Written(ms, l), false, l);
    assert AllRecorded(ms)[0] == Recorded(ms[0]);
    assert r.Some? ==> r.value[0] == ReadEntry(Written(ms, l), l).value.entry;
  }

  /** What the columns hold: a name of at most 15 bytes without white space in front, up to
      twelve, six, six and ten decimal digits, and up to seven octal ones; a minus sign takes the
      place of a digit. */
  predicate Standard(m: Member) {
    && |m.name| <= 15 && (m.name == [] || !(0x09 <= m.name[0] <= 0x0D || 0x1C <= m.name[0] <= 0x20))
    && -100000000000 < m.timestamp < 1000000000000
    && -100000 < m.owner < 1000000 && -100000 < m.group < 1000000
    && -262144 < m.mode < 2097152
    && -1000000000 < Size(m) < 10000000000
  }

  lemma StandardFits(m: Member)
    ensures Standard(m) <==> Fits(m, Columns())
  {
    Powers();
    NumberFitsIff(m.timestamp, Columns()[0]);
    NumberFitsIff(m.owner, Columns()[1]);
    NumberFitsIff(m.group, Columns()[2]);
    NumberFitsIff(m.mode, Columns()[3]);
    NumberFitsIff(Size(m), Columns()[4]);
    FiveFit(m, Columns());
  }

  lemma FiveFit(m: Member, l: Layout)
    ensures NumbersFit(Numbers(m), l) <==>
            && NumberFits(m.timestamp, l[0]) && NumberFits(m.owner, l[1]) && NumberFits(m.group, l[2])
            && NumberFits(m.mode, l[3]) && NumberFits(Size(m), l[4])
  {
    var ns := Numbers(m);
    assert NumbersFit(ns, l) ==>
             && NumberFits(ns[0], l[0]) && NumberFits(ns[1], l[1]) && NumberFits(ns[2], l[2])
             && NumberFits(ns[3], l[3]) && NumberFits(ns[4], l[4]);
  }

  predicate AllStandard(ms: seq<Member>) { forall i :: 0 <= i < |ms| ==> Standard(ms[i]) && SizeFits(ms, i) }

  /** Archive round trip: reading an archive back gives exactly the members that were written,
      in order, and then the end, if and only if every member keeps the bounds of its columns and
      the size column is right (or asks for more at the very end, where nothing is left to read). */
  lemma ArchiveBackIff(ms: seq<Member>)
    ensures ReadArchive(Magic() + StandardBytes(ms)) == Some(AllRecorded(ms)) <==> AllStandard(ms)
  {
    LayoutBackIff(ms, Columns());
    forall i | 0 <= i < |ms| ensures Standard(ms[i]) <==> Fits(ms[i], Columns()) { StandardFits(ms[i]); }
  }

  /** A name of 16 bytes pushes its slash into the next column. */
  lemma SixteenByteNameIsLost()
    ensures var ms := [Member(seq(16, i => 0x61), 0, 0, 0, 0, false, -1, [])];
            ReadArchive(Magic() + StandardBytes(ms)) != Some(AllRecorded(ms))
  {
    var ms := [Member(seq(16, i => 0x61), 0, 0, 0, 0, false, -1, [])];
    assert !Standard(ms[0]);
    ArchiveBackIff(ms);
  }

  lemma LayoutBackIff(ms: seq<Member>, l: Layout)
    ensures ReadArchiveAs(Magic() + Written(ms, l), l) == Some(AllRecorded(ms)) <==> AllFit(ms, l)
  {
    TakeDrop(Magic(), Written(ms, l));
    MembersBackIff(ms, l);
  }

  // ---------------------------------------------------------------- the writer

  /** A file open for writing. */
  class FileObject {
    var bytes: Bytes

    constructor ()
      ensures bytes == []
    {
      bytes := [];
    }

    method Write(data: Bytes)
      modifies this
      ensures bytes == old(bytes) + data
    {
      bytes := bytes + data;
    }
  }

  const COPY_CHUNK_SIZE := 1024 * 32

  predicate Ascii(s: Bytes) { forall i :: 0 <= i < |s| ==> s[i] < 128 }

  /** The header columns, written one after the other. */
  method WriteHeader(file: FileObject, m: Member, l: Layout)
    modifies file
    ensures file.bytes == old(file.bytes) + (NameColumn(m.name) + (WriteNumbers(Numbers(m), l) + Terminator()))
  {
    file.Write(NameColumn(m.name));
    var ns, cols := Numbers(m), l;
    ghost var before := file.bytes;
    var i := 0;
    assert ns[0..] == ns && cols[0..] == cols;
    while i < |ns|
      invariant i <= |ns| == |cols|
      invariant file.bytes + WriteNumbers(ns[i..], cols[i..]) == before + WriteNumbers(ns, cols)
    {
      assert ns[i..][1..] == ns[i + 1..] && cols[i..][1..] == cols[i + 1..];
      Regroup(file.bytes, Column(NumberText(ns[i], cols[i]), cols[i].width), WriteNumbers(ns[i + 1..], cols[i + 1..]));
      file.Write(Column(NumberText(ns[i], cols[i]), cols[i].width));
      i := i + 1;
    }
    Nothing(file.bytes);
    file.Write(Terminator());
    Regroup(before, WriteNumbers(ns, cols), Terminator());
    Regroup(old(file.bytes), NameColumn(m.name), WriteNumbers(ns, cols) + Terminator());
  }

  /** Copies the content chunk by chunk and says how many bytes went over. */
  method CopyContent(file: FileObject, content: Bytes) returns (size: nat)
    modifies file
    ensures size == |content| && file.bytes == old(file.bytes) + content
  {
    size := 0;
    var position := 0;
    Nothing(file.bytes);
    while true
      invariant size == position <= |content| && file.bytes == old(file.bytes) + content[..position]
      decreases |content| - position
    {
      var data := Take(content[position..], COPY_CHUNK_SIZE);
      if data == [] { break; }
      assert content[..position] + data == content[..position + |data|];
      Regroup(old(file.bytes), content[..position], data);
      position := position + |data|;
      size := size + |data|;
      file.Write(data);
    }
    assert content[..position] == content;
  }

  /** `AddArFileEntry`; a name that is not ASCII raises before anything is written. */
  method AddArFileEntry(file: FileObject, m: Member, l: Layout) returns (ok: bool)
    modifies file
    ensures ok == Ascii(m.name)
    ensures file.bytes == old(file.bytes) + if ok then MemberBytes(m, l) else []
  {
    if !Ascii(m.name) {
      Nothing(file.bytes);
      return false;
    }
    WriteHeader(file, m, l);
    var size := CopyContent(file, m.content);
    Nothing(m.content);
    if size % 2 != 0 {
      file.Write([NEWLINE]);
    }
    MemberParts(old(file.bytes), m, l);
    ok := true;
  }

  lemma MemberParts(before: Bytes, m: Member, l: Layout)
    ensures before + (NameColumn(m.name) + (WriteNumbers(Numbers(m), l) + Terminator())) + m.content
         + Padding(m.content)
         == before + MemberBytes(m, l)
    ensures |m.content| % 2 == 0 ==>
              before + (NameColumn(m.name) + (WriteNumbers(Numbers(m), l) + Terminator())) + m.content ==
                before + MemberBytes(m, l)
  {
    RegroupParts(before, NameColumn(m.name), WriteNumbers(Numbers(m), l), Terminator(), m.content, Padding(m.content));
  }

  lemma RegroupParts(z: Bytes, a: Bytes, b: Bytes, c: Bytes, d: Bytes, e: Bytes)
    ensures z + (a + (b + c)) + d + e == z + (a + (b + (c + (d + e))))
    ensures e == [] ==> z + (a + (b + c)) + d == z + (a + (b + (c + (d + e))))
  {
  }

  /** The way `CreateDeb` lays an archive out: the magic, then its members; the first name
      that is not ASCII raises. */
  method WriteArchive(ms: seq<Member>) returns (file: FileObject, ok: bool)
    ensures fresh(file)
    ensures ok <==> forall i :: 0 <= i < |ms| ==> Ascii(ms[i].name)
    ensures ok ==> file.bytes == Magic() + StandardBytes(ms)
    ensures ok ==> (ReadArchive(file.bytes) == Some(AllRecorded(ms)) <==> AllStandard(ms))
  {
    file, ok := WriteMembers(ms, Columns());
    ArchiveBackIff(ms);
  }

  method WriteMembers(ms: seq<Member>, l: Layout) returns (file: FileObject, ok: bool)
    ensures fresh(file)
    ensures ok <==> forall i :: 0 <= i < |ms| ==> Ascii(ms[i].name)
    ensures ok ==> file.bytes == Magic() + Written(ms, l)
  {
    file := new FileObject();
    file.Write(Magic());
    Nothing(Magic());
    var i := 0;
    assert ms[0..] == ms;
    while i < |ms|
      invariant i <= |ms| && fresh(file) && file.bytes + Written(ms[i..], l) == Magic() + Written(ms, l)
      invariant forall j :: 0 <= j < i ==> Ascii(ms[j].name)
    {
      assert ms[i..][1..] == ms[i + 1..];
      Regroup(file.bytes, MemberBytes(ms[i], l), Written(ms[i + 1..], l));
      ok := AddArFileEntry(file, ms[i], l);
      if !ok { return; }
      i := i + 1;
    }
    Nothing(file.bytes);
    ok := true;
  }

  // ---------------------------------------------------------------- the reader

  datatype Step = End | Invalid | Next(entry: Entry)

  /** An archive open for reading, with its cursor. */
  class SimpleArFile {
    const bytes: Bytes
    const layout: Layout
    var position: nat

    ghost predicate Valid()
      reads this
    {
      position <= |bytes|
    }

    ghost function Rest(): Bytes
      reads this
      requires Valid()
    {
      bytes[position..]
    }

    constructor (bytes: Bytes, l: Layout)
      ensures Valid() && position == 0 && this.bytes == bytes && layout == l
    {
      this.bytes := bytes;
      layout := l;
      position := 0;
    }

    /** `f.read(n)` */
    method Read(n: nat) returns (r: Bytes)
      requires Valid()
      modifies this
      ensures Valid() && r == Take(old(Rest()), n) && Rest() == Drop(old(Rest()), n)
      ensures position == old(position) + |r|
    {
      r := Take(bytes[position..], n);
      position := position + |r|;
    }

    method ReadInt(n: int) returns (r: Bytes)
      requires Valid()
      modifies this
      ensures Valid() && r == TakeInt(old(Rest()), n) && Rest() == DropInt(old(Rest()), n)
      ensures position == old(position) + |r|
    {
      if n < 0 {
        r := bytes[position..];
        position := |bytes|;
      } else {
        r := Read(n);
      }
    }

    /** `__enter__` */
    method Enter() returns (ok: bool)
      requires Valid() && position == 0
      modifies this
      ensures Valid() && ok == (Take(bytes, 8) == Magic())
      ensures ok ==> Rest() == Drop(bytes, 8) && position == 8
    {
      assert bytes[0..] == bytes;
      var magic := Read(8);
      ok := magic == Magic();
    }

    /** `int(f.read(width).strip(), base)` */
    method ReadColumn(c: Col) returns (n: Option<int>)
      requires Valid()
      modifies this
      ensures Valid() && n == ReadNumber(Take(old(Rest()), c.width), c.base) && Rest() == Drop(old(Rest()), c.width)
    {
      var text := Read(c.width);
      n := ReadNumber(text, c.base);
    }

    /** The five numeric fields. */
    method ReadFields() returns (ns: Option<seq<int>>)
      requires Valid()
      modifies this
      ensures Valid()
      ensures var row := ReadNumbers(old(Rest()), layout);
              && ns == (if row.None? then None else Some(row.value.ns))
              && (ns.Some? ==> Rest() == row.value.rest)
    {
      FiveColumns(Rest(), layout);
      var timestamp := ReadColumn(layout[0]);
      var owner := ReadColumn(layout[1]);
      var group := ReadColumn(layout[2]);
      var mode := ReadColumn(layout[3]);
      var size := ReadColumn(layout[4]);
      ns := AllFive(timestamp, owner, group, mode, size);
      RowOfFive(timestamp, owner, group, mode, size, Rest());
    }

    /** `SimpleArFileEntry(f)` */
    method ReadEntryHere() returns (step: Step)
      requires Valid()
      modifies this
      ensures Valid() && step != End
      ensures var r := ReadEntry(old(Rest()), layout);
              && step == (if r.None? then Invalid else Next(r.value.entry))
              && (r.Some? ==> Rest() == r.value.rest)
    {
      var column := Read(NAME_WIDTH);
      var ns := ReadFields();
      if ns.None? { return Invalid; }
      var pad := Read(2);
      if pad != Terminator() { return Invalid; }
      var data := ReadInt(ns.value[4]);
      step := Next(Entry(ReadName(column), ns.value[0], ns.value[1], ns.value[2], ns.value[3], ns.value[4], data));
    }

    /** Members are two-byte aligned with new lines. */
    method Align()
      requires Valid()
      modifies this
      ensures Valid() && Rest() == Aligned(old(Rest()), old(position) % 2 == 1)
      ensures position % 2 == 0 || Rest() == []
    {
      if position % 2 != 0 {
        var skipped := Read(1);
      }
    }

    /** `next()` */
    method NextEntry() returns (step: Step)
      requires Valid()
      modifies this
      ensures Valid()
      ensures Offers(old(Rest()), old(position) % 2 == 1, step, Rest(), position % 2 == 1, layout)
    {
      Align();
      if position > |bytes| - HEADER_SIZE { return End; }
      ghost var s, here := Rest(), position;
      step := ReadEntryHere();
      if step.Next? { ParityAfter(s, here, position, |bytes|, ReadEntry(s, layout).value, layout); }
    }
  }

  /** What `next()` finds at a cursor, and where it leaves the cursor. */
  ghost predicate Offers(rest: Bytes, odd: bool, step: Step, rest': Bytes, odd': bool, l: Layout) {
    var s := Aligned(rest, odd);
    if |s| < HEADER_SIZE then step == End
    else if ReadEntry(s, l).None? then step == Invalid
    else step == Next(ReadEntry(s, l).value.entry) && ReadEntry(s, l).value.rest == rest'
         && ReadEntry(s, l).value.odd == odd'
  }

  ghost function Cons(n: Option<int>, more: Option<Row>): Option<Row> {
    if n.None? || more.None? then None else Some(Row([n.value] + more.value.ns, more.value.rest))
  }

  /** The exception of any field is that of the header. */
  function AllFive(a: Option<int>, b: Option<int>, c: Option<int>, d: Option<int>, e: Option<int>): Option<seq<int>> {
    if a.None? || b.None? || c.None? || d.None? || e.None? then None
    else Some([a.value, b.value, c.value, d.value, e.value])
  }

  lemma RowOfFive(a: Option<int>, b: Option<int>, c: Option<int>, d: Option<int>, e: Option<int>, rest: Bytes)
    ensures Cons(a, Cons(b, Cons(c, Cons(d, Cons(e, Some(Row([], rest))))))) ==
            var ns := AllFive(a, b, c, d, e); if ns.None? then None else Some(Row(ns.value, rest))
  {
    if AllFive(a, b, c, d, e).Some? {
      assert [a.value] + ([b.value] + ([c.value] + ([d.value] + ([e.value] + []))))
          == [a.value, b.value, c.value, d.value, e.value];
    }
  }

  ghost function ColumnValue(s: Bytes, c: Col): Option<int> { ReadNumber(Take(s, c.width), c.base) }

  lemma ReadNumbersFrom(s: Bytes, cols: seq<Col>, k: nat)
    requires k < |cols|
    ensures ReadNumbers(s, cols[k..]) ==
            Cons(ColumnValue(s, cols[k]), ReadNumbers(Drop(s, cols[k].width), cols[k + 1..]))
  {
    assert cols[k..][1..] == cols[k + 1..];
  }

  lemma FiveColumns(s: Bytes, l: Layout)
    ensures var s1 := Drop(s, l[0].width);
            var s2 := Drop(s1, l[1].width);
            var s3 := Drop(s2, l[2].width);
            var s4 := Drop(s3, l[3].width);
            ReadNumbers(s, l) ==
            Cons(ColumnValue(s, l[0]), Cons(ColumnValue(s1, l[1]), Cons(ColumnValue(s2, l[2]),
              Cons(ColumnValue(s3, l[3]), Cons(ColumnValue(s4, l[4]), Some(Row([], Drop(s4, l[4].width))))))))
  {
    var s1 := Drop(s, l[0].width);
    var s2 := Drop(s1, l[1].width);
    var s3 := Drop(s2, l[2].width);
    assert l[0..] == l && l[5..] == [];
    ReadNumbersFrom(s, l, 0);
    ReadNumbersFrom(s1, l, 1);
    ReadNumbersFrom(s2, l, 2);
    ReadNumbersFrom(s3, l, 3);
    ReadNumbersFrom(Drop(s3, l[3].width), l, 4);
  }

  lemma {:induction false} NumbersRead(s: Bytes, cols: seq<Col>)
    requires |s| >= TotalWidth(cols)
    ensures var r := ReadNumbers(s, cols); r.Some? ==> |r.value.rest| == |s| - TotalWidth(cols)
    decreases |cols|
  {
    if cols != [] { NumbersRead(Drop(s, cols[0].width), cols[1..]); }
  }

  lemma EntryLength(s: Bytes, l: Layout)
    requires |s| >= HEADER_SIZE
    ensures var r := ReadEntry(s, l);
            r.Some? ==>
              && |r.value.rest| == |s| - HEADER_SIZE - |r.value.entry.data|
              && r.value.odd == (|r.value.entry.data| % 2 == 1)
  {
    NumbersRead(Drop(s, NAME_WIDTH), l);
  }

  lemma ParityAfter(s: Bytes, here: nat, after: nat, total: nat, g: Got, l: Layout)
    requires |s| >= HEADER_SIZE && here % 2 == 0 && here + |s| == total && ReadEntry(s, l) == Some(g)
    requires after + |g.rest| == total
    ensures (after % 2 == 1) == g.odd
  {
    EntryLength(s, l);
    SameParity(here, after, |g.entry.data|);
  }

  lemma SameParity(here: nat, after: nat, n: nat)
    requires here % 2 == 0 && after == here + HEADER_SIZE + n
    ensures after % 2 == n % 2
  {
  }

  /** The standard use of the reader: every entry until None. */
  method ListArchive(bytes: Bytes) returns (entries: Option<seq<Entry>>)
    ensures entries == ReadArchive(bytes)
  {
    var f := new SimpleArFile(bytes, Columns());
    entries := ListEntries(f);
  }

  method ListEntries(f: SimpleArFile) returns (entries: Option<seq<Entry>>)
    requires f.Valid() && f.position == 0
    modifies f
    ensures entries == ReadArchiveAs(f.bytes, f.layout)
  {
    var ok := f.Enter();
    if !ok { return None; }
    var found: seq<Entry> := [];
    ghost var rest, odd := f.Rest(), false;
    ghost var all := ReadAll(rest, odd, f.layout);
    PrependNothing(all);
    var step := f.NextEntry();
    while step.Next?
      invariant f.Valid() && Offers(rest, odd, step, f.Rest(), f.position % 2 == 1, f.layout)
      invariant all == Prepend(found, ReadAll(rest, odd, f.layout))
      decreases |rest|
    {
      ghost var next, odd' := f.Rest(), f.position % 2 == 1;
      OfferedFirst(rest, odd, step, next, odd', f.layout);
      PrependOne(found, step.entry, ReadAll(next, odd', f.layout));
      rest, odd := next, odd';
      found := found + [step.entry];
      step := f.NextEntry();
    }
    OfferedLast(rest, odd, step, f.Rest(), f.position % 2 == 1, f.layout);
    if step == Invalid { return None; }
    Nothing(found);
    entries := Some(found);
  }

  lemma OfferedFirst(rest: Bytes, odd: bool, step: Step, rest': Bytes, odd': bool, l: Layout)
    requires Offers(rest, odd, step, rest', odd', l) && step.Next?
    ensures |rest'| < |rest|
    ensures var more := ReadAll(rest', odd', l);
            ReadAll(rest, odd, l) == if more.None? then None else Some([step.entry] + more.value)
  {
  }

  lemma OfferedLast(rest: Bytes, odd: bool, step: Step, rest': Bytes, odd': bool, l: Layout)
    requires Offers(rest, odd, step, rest', odd', l) && !step.Next?
    ensures ReadAll(rest, odd, l) == if step == End then Some([]) else None
  {
  }

  ghost function Prepend(found: seq<Entry>, more: Option<seq<Entry>>): Option<seq<Entry>> {
    if more.None? then None else Some(found + more.value)
  }

  lemma PrependNothing(more: Option<seq<Entry>>)
    ensures Prepend([], more) == more
  {
    if more.Some? { assert [] + more.value == more.value; }
  }

  lemma PrependOne(found: seq<Entry>, e: Entry, more: Option<seq<Entry>>)
    ensures Prepend(found, if more.None? then None else Some([e] + more.value)) == Prepend(found + [e], more)
  {
    if more.Some? { assert found + ([e] + more.value) == (found + [e]) + more.value; }
  }
}
