/** Where the bytes of an `ar` header stand, on both sides. */
module ArHeader {
  import opened Basics
  import opened Digits
  import opened ArArchive
  import opened ArFile

  /** A field that holds a text and blanks after it. */
  predicate Holds(field: Bytes, text: Bytes) {
    && |text| <= |field| && field[..|text|] == text
    && forall i :: |text| <= i < |field| ==> field[i] == 0x20
  }

  /** A field that holds a number: a minus sign if it is negative, then what leads, then its
      numeral. */
  ghost predicate HoldsNumber(field: Bytes, n: int, lead: Bytes, radix: nat) {
    exists text :: Numeral(text, if n < 0 then -n else n, radix) && Holds(field, Before(n, lead) + text)
  }

  ghost function Before(n: int, lead: Bytes): Bytes { if n < 0 then [0x2D] + lead else lead }

  lemma {:induction false} SpacesAreBlank(n: nat)
    ensures |Spaces(n)| == n && forall i :: 0 <= i < n ==> Spaces(n)[i] == 0x20
  {
    if n > 0 { SpacesAreBlank(n - 1); }
  }

  lemma ColumnHolds(text: Bytes, width: nat)
    requires |text| <= width
    ensures |Column(text, width)| == width && Holds(Column(text, width), text)
  {
    SpacesAreBlank(width - |text|);
  }

  lemma NumberHolds(n: int, c: Col)
    requires NumberFits(n, c)
    ensures var field := Column(NumberText(n, c), c.width);
            && |field| == c.width
            && HoldsNumber(field, n, if c.zero then [0x30] else [], if c.base == Ten then 10 else 8)
  {
    var text, lead := DigitsOf(Magnitude(n), c.base), if c.zero then [0x30] else [];
    DigitsNumeral(Magnitude(n), c.base);
    ColumnHolds(NumberText(n, c), c.width);
    assert NumberText(n, c) == Before(n, lead) + text;
  }

  lemma FiveWritten(ns: seq<int>, l: Layout)
    requires |ns| == 5
    ensures WriteNumbers(ns, l) ==
              Field(ns[0], l[0]) + (Field(ns[1], l[1]) + (Field(ns[2], l[2]) + (Field(ns[3], l[3])
                + Field(ns[4], l[4]))))
  {
    assert ns[0..] == ns && l[0..] == l && ns[5..] == [] && l[5..] == [];
    WrittenFrom(ns, l, 0);
    WrittenFrom(ns, l, 1);
    WrittenFrom(ns, l, 2);
    WrittenFrom(ns, l, 3);
    WrittenFrom(ns, l, 4);
    Nothing(Field(ns[4], l[4]));
  }

  function Field(n: int, c: Col): Bytes { Column(NumberText(n, c), c.width) }

  lemma WrittenFrom(ns: seq<int>, cols: seq<Col>, k: nat)
    requires |ns| == |cols| && k < |ns|
    ensures WriteNumbers(ns[k..], cols[k..]) == Field(ns[k], cols[k]) + WriteNumbers(ns[k + 1..], cols[k + 1..])
  {
    assert ns[k..][1..] == ns[k + 1..] && cols[k..][1..] == cols[k + 1..];
  }

  /** Seven parts of known lengths stand at known positions. */
  lemma Positions(a: Bytes, b: Bytes, c: Bytes, d: Bytes, e: Bytes, f: Bytes, g: Bytes, h: Bytes)
    requires |a| == 16 && |b| == 12 && |c| == 6 && |d| == 6 && |e| == 8 && |f| == 10 && |g| == 2
    ensures var s := a + ((b + (c + (d + (e + f)))) + (g + h));
            && |s| >= 60 && s[..16] == a && s[16..28] == b && s[28..34] == c && s[34..40] == d
            && s[40..48] == e && s[48..58] == f && s[58..60] == g && s[60..] == h
  {
  }

  /** The columns of a member whose parts have their widths. */
  lemma ColumnsStand(m: Member, l: Layout)
    requires |NameColumn(m.name)| == 16 && |Field(m.timestamp, l[0])| == 12 && |Field(m.owner, l[1])| == 6
    requires |Field(m.group, l[2])| == 6 && |Field(m.mode, l[3])| == 8 && |Field(Size(m), l[4])| == 10
    ensures var s := MemberBytes(m, l);
            && |s| >= 60 && s[..16] == NameColumn(m.name) && s[16..28] == Field(m.timestamp, l[0])
            && s[28..34] == Field(m.owner, l[1]) && s[34..40] == Field(m.group, l[2])
            && s[40..48] == Field(m.mode, l[3]) && s[48..58] == Field(Size(m), l[4])
            && s[58..60] == Terminator() && s[60..] == m.content + Padding(m.content)
  {
    FiveWritten(ArFile.Numbers(m), l);
    Positions(NameColumn(m.name), Field(m.timestamp, l[0]), Field(m.owner, l[1]), Field(m.group, l[2]),
              Field(m.mode, l[3]), Field(Size(m), l[4]), Terminator(), m.content + Padding(m.content));
  }

  /** Every byte the writer appends for a member that keeps the bounds: the name and a slash, five
      numbers, two bytes that end the header, the content, and a newline after an odd content. */
  lemma HeaderPositions(m: Member)
    requires Standard(m)
    ensures var s := StandardBytes([m]);
            && |s| >= 60 && Holds(s[..16], m.name + [0x2F])
            && HoldsNumber(s[16..28], m.timestamp, [], 10)
            && HoldsNumber(s[28..34], m.owner, [], 10)
            && HoldsNumber(s[34..40], m.group, [], 10)
            && HoldsNumber(s[40..48], m.mode, [0x30], 8)
            && HoldsNumber(s[48..58], if m.contentLen < 0 && !m.fileLike then |m.content| else m.contentLen, [], 10)
            && s[58..60] == [0x60, 0x0A]
            && s[60..] == m.content + if |m.content| % 2 == 1 then [0x0A] else []
  {
    var l := Columns();
    StandardFits(m);
    FiveFit(m, l);
    ColumnHolds(m.name + [SLASH], 16);
    NumberHolds(m.timestamp, l[0]);
    NumberHolds(m.owner, l[1]);
    NumberHolds(m.group, l[2]);
    NumberHolds(m.mode, l[3]);
    NumberHolds(Size(m), l[4]);
    ColumnsStand(m, l);
    OneWritten(m, l);
  }

  lemma OneWritten(m: Member, l: Layout)
    ensures Written([m], l) == MemberBytes(m, l)
  {
    var none: seq<Member> := [m][1..];
    assert none == [];
    assert Written([m], l) == MemberBytes(m, l) + Written(none, l);
    Nothing(MemberBytes(m, l));
  }

  // ---------------------------------------------------------------- the reader

  lemma SlicesTaken(s: Bytes)
    requires |s| >= 60
    ensures var t := Drop(s, 16);
            && Take(s, 16) == s[..16] && Take(t, 12) == s[16..28] && Take(Drop(t, 12), 6) == s[28..34]
            && Take(Drop(Drop(t, 12), 6), 6) == s[34..40]
            && Take(Drop(Drop(Drop(t, 12), 6), 6), 8) == s[40..48]
            && Take(Drop(Drop(Drop(Drop(t, 12), 6), 6), 8), 10) == s[48..58]
            && Drop(Drop(Drop(Drop(Drop(t, 12), 6), 6), 8), 10) == s[58..]
  {
  }

  lemma BodyTaken(s: Bytes)
    requires |s| >= 60
    ensures Take(s[58..], 2) == s[58..60] && Drop(s[58..], 2) == s[60..]
  {
  }

  /** What an entry is made of: the bytes at the places of the writer's fields. */
  ghost predicate MadeOf(e: Entry, s: Bytes)
    requires |s| >= 60
  {
    && e.name == ReadName(s[..16])
    && ReadNumber(s[16..28], Ten) == Some(e.timestamp)
    && ReadNumber(s[28..34], Ten) == Some(e.owner) && ReadNumber(s[34..40], Ten) == Some(e.group)
    && ReadNumber(s[40..48], Eight) == Some(e.mode)
    && ReadNumber(s[48..58], Ten) == Some(e.size)
    && s[58..60] == [0x60, 0x0A] && e.data == TakeInt(s[60..], e.size)
  }

  /** The numbers of a row, each read from its own column. */
  lemma RowFields(s: Bytes, l: Layout)
    requires ReadNumbers(s, l).Some?
    ensures var ns := ReadNumbers(s, l).value.ns;
            var s1 := Drop(s, l[0].width);
            var s2 := Drop(s1, l[1].width);
            var s3 := Drop(s2, l[2].width);
            var s4 := Drop(s3, l[3].width);
            && ColumnValue(s, l[0]) == Some(ns[0]) && ColumnValue(s1, l[1]) == Some(ns[1])
            && ColumnValue(s2, l[2]) == Some(ns[2]) && ColumnValue(s3, l[3]) == Some(ns[3])
            && ColumnValue(s4, l[4]) == Some(ns[4]) && ReadNumbers(s, l).value.rest == Drop(s4, l[4].width)
  {
    var s1 := Drop(s, l[0].width);
    var s2 := Drop(s1, l[1].width);
    var s3 := Drop(s2, l[2].width);
    var s4 := Drop(s3, l[3].width);
    FiveColumns(s, l);
    FiveCons(ColumnValue(s, l[0]), ColumnValue(s1, l[1]), ColumnValue(s2, l[2]), ColumnValue(s3, l[3]),
             ColumnValue(s4, l[4]), Drop(s4, l[4].width), ReadNumbers(s, l));
  }

  lemma FiveCons(a: Option<int>, b: Option<int>, c: Option<int>, d: Option<int>, e: Option<int>, rest: Bytes,
                 r: Option<Row>)
    requires r == Cons(a, Cons(b, Cons(c, Cons(d, Cons(e, Some(Row([], rest)))))))
    requires r.Some? && |r.value.ns| == 5
    ensures var ns := r.value.ns;
            && a == Some(ns[0]) && b == Some(ns[1]) && c == Some(ns[2]) && d == Some(ns[3]) && e == Some(ns[4])
            && r.value.rest == rest
  {
    RowOfFive(a, b, c, d, e, rest);
  }

  lemma EntryParts(s: Bytes, l: Layout, ns: seq<int>, body: Bytes)
    requires |ns| == 5 && ReadNumbers(Drop(s, NAME_WIDTH), l) == Some(Row(ns, body)) && ReadEntry(s, l).Some?
    ensures Take(body, 2) == [0x60, 0x0A]
    ensures ReadEntry(s, l).value.entry ==
            Entry(ReadName(Take(s, 16)), ns[0], ns[1], ns[2], ns[3], ns[4], TakeInt(Drop(body, 2), ns[4]))
  {
  }

  lemma EntryFields(s: Bytes, l: Layout)
    requires |s| >= 60 && l == Columns() && ReadEntry(s, l).Some?
    ensures MadeOf(ReadEntry(s, l).value.entry, s)
  {
    var row := ReadNumbers(Drop(s, NAME_WIDTH), l).value;
    RowFields(Drop(s, NAME_WIDTH), l);
    EntryParts(s, l, row.ns, row.rest);
    SlicesTaken(s);
    BodyTaken(s);
  }

  lemma FirstOfAll(s: Bytes, l: Layout)
    requires |s| >= 60 && l == Columns() && ReadAll(s, false, l).Some?
    ensures ReadAll(s, false, l).value != [] && MadeOf(ReadAll(s, false, l).value[0], s)
  {
    assert ReadEntry(s, l).Some? && ReadAll(s, false, l).value[0] == ReadEntry(s, l).value.entry;
    EntryFields(s, l);
  }

  lemma AfterMagic(bytes: Bytes, s: Bytes, l: Layout)
    requires |bytes| >= 8 && s == bytes[8..] && ReadArchiveAs(bytes, l).Some?
    ensures ReadArchiveAs(bytes, l) == ReadAll(s, false, l)
  {
  }

  /** The reader looks for the fields of the first entry where the writer puts them. */
  lemma FirstEntry(bytes: Bytes, s: Bytes)
    requires |bytes| >= 68 && s == bytes[8..]
    ensures var r := ReadArchive(bytes); r.Some? ==> r.value != [] && MadeOf(r.value[0], s)
  {
    if ReadArchive(bytes).Some? {
      AfterMagic(bytes, s, Columns());
      FirstOfAll(s, Columns());
    }
  }

  lemma MagicText()
    ensures var text := "!<arch>\n";
            |Magic()| == |text| && forall i :: 0 <= i < |text| ==> Magic()[i] as int == text[i] as int
  {
  }

  // ---------------------------------------------------------------- what follows the members

  predicate Exact(ms: seq<Member>) { forall i :: 0 <= i < |ms| ==> Standard(ms[i]) && Size(ms[i]) == |ms[i].content| }

  /** The reader ignores up to 59 bytes after the members. */
  lemma GarbageIgnored(ms: seq<Member>, garbage: Bytes)
    requires Exact(ms) && |garbage| < 60
    ensures ReadArchive(Magic() + (StandardBytes(ms) + garbage)) == Some(AllRecorded(ms))
  {
    TakeDrop(Magic(), StandardBytes(ms) + garbage);
    MembersThen(ms, garbage, Columns());
    Nothing(AllRecorded(ms));
  }

  /** Members are read one after the other, whatever follows them. */
  lemma {:induction false} MembersThen(ms: seq<Member>, t: Bytes, l: Layout)
    requires Exact(ms) && l == Columns()
    ensures ReadAll(Written(ms, l) + t, false, l) == Prepend(AllRecorded(ms), ReadAll(t, false, l))
  {
    if ms == [] {
      Nothing(t);
      PrependNothing(ReadAll(t, false, l));
    } else {
      var m, u := ms[0], Written(ms[1..], l) + t;
      Regroup(MemberBytes(m, l), Written(ms[1..], l), t);
      StandardFits(m);
      MemberLength(m, l);
      MemberBack(m, u, l);
      ContentBackIff(m, u);
      PaddingSkipped(m.content, u);
      ReadAllAligned(Padding(m.content) + u, |m.content| % 2 == 1, l);
      MembersThen(ms[1..], t, l);
      PrependFirst(Recorded(m), AllRecorded(ms[1..]), ReadAll(t, false, l));
    }
  }

  lemma PrependFirst(e: Entry, found: seq<Entry>, more: Option<seq<Entry>>)
    ensures var rest := Prepend(found, more);
            Prepend([e] + found, more) == if rest.None? then None else Some([e] + rest.value)
  {
    if more.Some? { Regroup([e], found, more.value); }
  }
}
