/** What boot/installboot.c make_image() writes is what boot/bootimage.c exec_image() loads: every program of the image is
    found, and its text and data are in memory. */
module MadeImages {
  import opened ImageFormat
  import opened Loader

  // ---------------------------------------------------------------- an image as sectors

  /** The image as get_sector() gives it, none of its sectors being unreadable. */
  function Cut(b: Bytes): (s: seq<Sector>)
    requires |b| % SECTOR_SIZE == 0
    ensures Sectored(s) && |s| * SECTOR_SIZE == |b|
  {
    if b == [] then [] else [Data(b[..SECTOR_SIZE])] + Cut(b[SECTOR_SIZE..])
  }

  lemma {:induction false} CutAt(b: Bytes, v: nat)
    requires |b| % SECTOR_SIZE == 0 && v < |Cut(b)|
    ensures (v + 1) * SECTOR_SIZE <= |b| && Cut(b)[v] == Data(b[v * SECTOR_SIZE..(v + 1) * SECTOR_SIZE])
  {
    if v > 0 {
      CutAt(b[SECTOR_SIZE..], v - 1);
      assert b[SECTOR_SIZE..][(v - 1) * SECTOR_SIZE..v * SECTOR_SIZE] == b[v * SECTOR_SIZE..(v + 1) * SECTOR_SIZE];
    }
  }

  /** Reading n sectors from v on gives the bytes of the image that are there. */
  lemma {:induction false} StreamOfCut(b: Bytes, v: nat, n: nat)
    requires |b| % SECTOR_SIZE == 0 && (v + n) * SECTOR_SIZE <= |b|
    ensures Readable(Cut(b), v, n) && Stream(Cut(b), v, n) == b[v * SECTOR_SIZE..(v + n) * SECTOR_SIZE]
  {
    forall i | v <= i < v + n
      ensures Cut(b)[i].Data?
    {
      CutAt(b, i);
    }
    if n > 0 {
      StreamOfCut(b, v, n - 1);
      CutAt(b, v + n - 1);
      assert b[v * SECTOR_SIZE..(v + n) * SECTOR_SIZE]
             == b[v * SECTOR_SIZE..(v + n - 1) * SECTOR_SIZE] + b[(v + n - 1) * SECTOR_SIZE..(v + n) * SECTOR_SIZE];
    }
  }

  // ---------------------------------------------------------------- the headers are found

  /** The header of a program as it is in the image. */
  function HeaderOf(p: Program): (e: Bytes)
    requires Whole(p)
    ensures IsHeader(e)
  {
    Stripped(Header(p.file).value)
  }

  predicate AllWhole(ps: seq<Program>) {
    forall i :: 0 <= i < |ps| ==> Whole(ps[i])
  }

  /** The sectors of one entry: its header, and then what each segment needs. */
  function EntrySectors(p: Program): nat
    requires Whole(p)
  {
    1 + TotalSectors(Parts(HeaderOf(p)))
  }

  /** The programs whose names are selected, the first entry being at sector v; there must not be any others behind the
      last of them. */
  function Picked(ps: seq<Program>, v: nat, selected: Bytes -> bool): Option<seq<Chosen>>
    requires AllWhole(ps)
  {
    if ps == [] then Some([])
    else
      var rest := Picked(ps[1..], v + EntrySectors(ps[0]), selected);
      if selected(NameField(ps[0].name)) then Before([Chosen(v + 1, HeaderOf(ps[0]))], rest)
      else if |ps| == 1 then None
      else rest
  }

  lemma EntryLength(p: Program)
    requires Whole(p)
    ensures |Entry(p)| == EntrySectors(p) * SECTOR_SIZE && Entry(p)[IM_NAME_MAX + 1..IM_NAME_MAX + 1 + EXEC] == HeaderOf(p)
    ensures Entry(p)[..IM_NAME_MAX + 1] == NameField(p.name)
  {
    hide Header, Stripped, NameField, Zeros, Total, TotalSectors, Body, Parts;
    EntrySize(p);
    ProcSizeIsSectors(HeaderOf(p));
    assert Entry(p)[..IM_NAME_MAX + 1] == NameField(p.name);
  }

  /** The first sector of an entry is that of its header. */
  lemma EntryHead(b: Bytes, v: nat, front: Bytes, p: Program, tail: Bytes)
    requires Whole(p) && b == front + Entry(p) + tail && |front| == v * SECTOR_SIZE && |b| % SECTOR_SIZE == 0
    ensures v < |Cut(b)| && Cut(b)[v].Data? && HeadOf(Cut(b)[v].bytes, p)
  {
    hide HeaderOf, Entry, EntrySectors, NameField, Cut, HeadOf;
    EntryLength(p);
    CutAt(b, v);
    var s := Cut(b)[v].bytes;
    assert s == Entry(p)[..SECTOR_SIZE];
    HeadThere(s, Entry(p), p);
  }

  predicate HeadOf(s: Bytes, p: Program)
    requires Whole(p)
  {
    Magic(s) && ExecOf(s) == HeaderOf(p) && s[..IM_NAME_MAX + 1] == NameField(p.name)
  }

  lemma HeadThere(s: Bytes, entry: Bytes, p: Program)
    requires Whole(p) && |entry| >= SECTOR_SIZE && s == entry[..SECTOR_SIZE]
    requires entry[IM_NAME_MAX + 1..IM_NAME_MAX + 1 + EXEC] == HeaderOf(p) && entry[..IM_NAME_MAX + 1] == NameField(p.name)
    ensures HeadOf(s, p)
  {
    hide HeaderOf, NameField, Long;
    var e := s[IM_NAME_MAX + 1..IM_NAME_MAX + 1 + EXEC];
    assert e == HeaderOf(p) && s[IM_NAME_MAX + 1] == e[0] && s[IM_NAME_MAX + 2] == e[1];
    assert s[..IM_NAME_MAX + 1] == entry[..IM_NAME_MAX + 1];
  }

  lemma ImageStep(ps: seq<Program>)
    requires ps != [] && Image(ps).Some?
    ensures Whole(ps[0]) && Image(ps[1..]).Some? && Image(ps).value == Entry(ps[0]) + Image(ps[1..]).value
  {
  }

  /** An image that could be made is a number of whole entries. */
  lemma {:induction false} ImageWhole(ps: seq<Program>)
    requires Image(ps).Some?
    ensures AllWhole(ps) && |Image(ps).value| == SectorsIn(ps) * SECTOR_SIZE
  {
    hide Entry, Whole, EntrySectors;
    if ps != [] {
      ImageStep(ps);
      ImageWhole(ps[1..]);
      EntryLength(ps[0]);
      forall i | 0 <= i < |ps|
        ensures Whole(ps[i])
      {
        if i > 0 { assert ps[i] == ps[1..][i - 1]; }
      }
    }
  }

  function SectorsIn(ps: seq<Program>): nat
    requires AllWhole(ps)
  {
    if ps == [] then 0 else EntrySectors(ps[0]) + SectorsIn(ps[1..])
  }

  lemma NextStep(image: seq<Sector>, v: nat, imageSize: nat, selected: Bytes -> bool)
    requires Proper(image) && v < imageSize && v < |image| && image[v].Data? && Magic(image[v].bytes)
    ensures var e := ExecOf(image[v].bytes);
            IsHeader(e)
            && var next := v + 1 + ProcSize(e);
               if selected(image[v].bytes[..IM_NAME_MAX + 1]) then
                 AllChosen(image, v, imageSize, selected) == Before([Chosen(v + 1, e)], AllChosen(image, next, imageSize, selected))
               else if next < imageSize then AllChosen(image, v, imageSize, selected) == AllChosen(image, next, imageSize, selected)
               else NextChosen(image, v, selected) == NextChosen(image, next, selected)
                    && (NextChosen(image, next, selected).None? ==> AllChosen(image, v, imageSize, selected).None?)
  {
    hide Sane, Magic, ProcSize;
    SaneIsHeader(ExecOf(image[v].bytes));
  }

  /** Main result on finding: from a made image exactly the selected programs are taken, in order, each with its own header
      and the sector behind it; and this succeeds exactly if the last program of the image is selected. */
  lemma ChosenExactly(ps: seq<Program>, selected: Bytes -> bool)
    requires Image(ps).Some? && |Image(ps).value| % SECTOR_SIZE == 0 && Proper(Cut(Image(ps).value)) && AllWhole(ps)
    ensures var image := Cut(Image(ps).value); AllChosen(image, 0, |image|, selected) == Picked(ps, 0, selected)
    ensures Picked(ps, 0, selected).Some? <==> ps == [] || selected(NameField(ps[|ps| - 1].name))
  {
    ImageWhole(ps);
    assert [] + Image(ps).value == Image(ps).value;
    ChosenFrom(Image(ps).value, 0, [], ps, selected);
  }

  lemma {:induction false} ChosenFrom(b: Bytes, v: nat, front: Bytes, ps: seq<Program>, selected: Bytes -> bool)
    requires Image(ps).Some? && AllWhole(ps) && b == front + Image(ps).value
    requires |front| == v * SECTOR_SIZE && |b| % SECTOR_SIZE == 0 && |Cut(b)| == v + SectorsIn(ps) && Proper(Cut(b))
    ensures AllChosen(Cut(b), v, |Cut(b)|, selected) == Picked(ps, v, selected)
    ensures Picked(ps, v, selected).Some? <==> ps == [] || selected(NameField(ps[|ps| - 1].name))
    decreases |ps|
  {
    hide Cut, Entry, EntrySectors, HeaderOf, NameField, Magic, ExecOf, Proper, ProcSize, Whole, AllChosen, NextChosen;
    var image := Cut(b);
    if ps == [] {
      NothingChosen(image, v, selected);
    } else {
      ImageStep(ps);
      ImageWhole(ps[1..]);
      var tail, next := Image(ps[1..]).value, v + EntrySectors(ps[0]);
      assert b == front + Entry(ps[0]) + tail;
      EntryLength(ps[0]);
      EntryHead(b, v, front, ps[0], tail);
      ChosenFrom(b, next, front + Entry(ps[0]), ps[1..], selected);
      SectorsOfEntry(ps[0]);
      NextStep(image, v, |image|, selected);
      assert selected(NameField(ps[0].name)) <==> selected(image[v].bytes[..IM_NAME_MAX + 1]);
      if |ps| == 1 {
        NothingBehind(image, next, selected);
      } else {
        MoreBehind(ps[1..]);
      }
    }
  }

  lemma MoreBehind(ps: seq<Program>)
    requires AllWhole(ps) && ps != []
    ensures SectorsIn(ps) > 0
  {
  }

  lemma SectorsOfEntry(p: Program)
    requires Whole(p)
    ensures EntrySectors(p) == 1 + ProcSize(HeaderOf(p))
  {
    ProcSizeIsSectors(HeaderOf(p));
  }

  lemma NothingChosen(image: seq<Sector>, v: nat, selected: Bytes -> bool)
    requires Proper(image) && v >= |image|
    ensures AllChosen(image, v, |image|, selected) == Some([])
  {
  }

  lemma NothingBehind(image: seq<Sector>, v: nat, selected: Bytes -> bool)
    requires Proper(image) && v >= |image|
    ensures NextChosen(image, v, selected) == None
  {
  }

  // ---------------------------------------------------------------- the programs are in memory

  /** A segment of a made image becomes its bytes, and zeros up to a click. */
  lemma SegmentIs(b: Bytes, at: nat, seg: Bytes, c: nat)
    requires |b| % SECTOR_SIZE == 0 && IsClick(c) && (at + Sectors(|seg|)) * SECTOR_SIZE <= |b|
    requires b[at * SECTOR_SIZE..(at + Sectors(|seg|)) * SECTOR_SIZE] == Padded(seg)
    ensures SectorsOf(|seg|) == Sectors(|seg|) && Readable(Cut(b), at, SectorsOf(|seg|)) && Copied(|seg|, c) <= |Padded(seg)|
    ensures |seg| <= UpOf(|seg|, c)
    ensures Filled(Stream(Cut(b), at, SectorsOf(|seg|)), |seg|, c) == seg + Zeros(UpOf(|seg|, c) - |seg|)
  {
    hide Cut, Filled, Zeros, Padded, Copied, UpOf, Stream;
    StreamOfCut(b, at, Sectors(|seg|));
    FilledWithZeros(seg, c);
  }

  lemma BodyNone()
    ensures Body([], []) == [] && Total([]) == 0
  {
  }

  lemma BodyOne(bytes: Bytes)
    ensures Total([|bytes|]) == |bytes| && Body(bytes, [|bytes|]) == Padded(bytes)
  {
    hide Padded;
    var n := |bytes|;
    assert [n][1..] == [] && bytes[..n] == bytes && bytes[n..] == [];
    BodyNone();
  }

  lemma BodyTwo(t: Bytes, d: Bytes)
    ensures Total([|t|, |d|]) == |t + d| && Body(t + d, [|t|, |d|]) == Padded(t) + Padded(d)
  {
    hide Padded;
    BodyOne(d);
    assert [|t|, |d|][1..] == [|d|] && (t + d)[..|t|] == t && (t + d)[|t|..] == d;
  }

  /** What the program's file has of text and data. */
  function Contents(p: Program): (b: Bytes)
    requires Whole(p)
    ensures |b| == TextLen(HeaderOf(p)) + Long(HeaderOf(p), DATA)
  {
    var e := Header(p.file).value;
    StrippedSame(e);
    TotalOfParts(e);
    p.file[Start(e)..Start(e) + Total(Parts(e))]
  }

  lemma EntryBody(p: Program)
    requires Whole(p)
    ensures var e := HeaderOf(p); |Contents(p)| == Total(Parts(e)) && Entry(p)[SECTOR_SIZE..] == Body(Contents(p), Parts(e))
  {
    hide Header, Stripped, Total, Body, Long, Flag;
    var e := Header(p.file).value;
    StrippedSame(e);
    TotalOfParts(e);
  }

  /** Bytes, bss, and what is missing to a click. */
  function WithBss(bytes: Bytes, bss: nat, c: nat): (b: Bytes)
    requires c > 0
    ensures bytes <= b && |b| == UpOf(|bytes| + bss, c) && |bytes| + bss <= |b| < |bytes| + bss + c
    ensures forall i :: |bytes| <= i < |b| ==> b[i] == 0
  {
    UpOfAligned(|bytes| + bss, c);
    bytes + Zeros(UpOf(|bytes| + bss, c) - |bytes|)
  }

  lemma WithBssLater(bytes: Bytes, bss: nat, c: nat, n: nat)
    requires c > 0 && |WithBss(bytes, 0, c)| + n == UpOf(|bytes| + bss, c)
    ensures WithBss(bytes, 0, c) + Zeros(n) == WithBss(bytes, bss, c)
  {
    hide UpOf, Zeros;
    UpOfAligned(|bytes|, c);
    MoreZeros(UpOf(|bytes|, c) - |bytes|, n);
    assert bytes + Zeros(UpOf(|bytes|, c) - |bytes|) + Zeros(n) == bytes + (Zeros(UpOf(|bytes|, c) - |bytes|) + Zeros(n));
  }

  /** A segment that has been read is its bytes, without any bss yet. */
  lemma SegmentPlain(b: Bytes, at: nat, seg: Bytes, c: nat)
    requires |b| % SECTOR_SIZE == 0 && IsClick(c) && (at + Sectors(|seg|)) * SECTOR_SIZE <= |b|
    requires b[at * SECTOR_SIZE..(at + Sectors(|seg|)) * SECTOR_SIZE] == Padded(seg)
    ensures SectorsOf(|seg|) == Sectors(|seg|) && Readable(Cut(b), at, SectorsOf(|seg|)) && Copied(|seg|, c) <= |Padded(seg)|
    ensures Filled(Stream(Cut(b), at, SectorsOf(|seg|)), |seg|, c) == WithBss(seg, 0, c)
  {
    hide Cut, Padded, Filled, Stream, Copied, UpOf, Zeros, Sectors, IsClick;
    SegmentIs(b, at, seg, c);
  }

  /** Text and data as one segment. */
  lemma JointIs(b: Bytes, at: nat, e: Bytes, bytes: Bytes, k: nat, f: Features, c: nat)
    requires |b| % SECTOR_SIZE == 0 && IsClick(c) && 0 < c <= 0x1_0000 && Sane(e) && IsHeader(e) && !Flag(e, A_SEP)
    requires |bytes| == LastSize(e) && (at + Sectors(|bytes|)) * SECTOR_SIZE <= |b|
    requires b[at * SECTOR_SIZE..(at + Sectors(|bytes|)) * SECTOR_SIZE] == Padded(bytes)
    ensures Readable(Cut(b), at, TotalSectors(Parts(e)))
    ensures InMemory(Cut(b), at, e, k, f, c) == WithBss(bytes, BssOf(e, k, f), c)
  {
    hide Cut, Padded, UpOf, Zeros, Sectors, Sane, Long, Flag, BssOf, TotalSectors, IsHeader, BssClicks, StackOf,
         Leftover, IsClick, TextLen, WithBss, Segments;
    SegmentsJoint(b, at, e, bytes, c);
    Extent(e, k, f, c);
    WithBssLater(bytes, BssOf(e, k, f), c, BssClicks(e, c, k, f));
  }

  lemma SegmentsJoint(b: Bytes, at: nat, e: Bytes, bytes: Bytes, c: nat)
    requires |b| % SECTOR_SIZE == 0 && IsClick(c) && IsHeader(e) && !Flag(e, A_SEP)
    requires |bytes| == TextLen(e) + Long(e, DATA) && (at + Sectors(|bytes|)) * SECTOR_SIZE <= |b|
    requires b[at * SECTOR_SIZE..(at + Sectors(|bytes|)) * SECTOR_SIZE] == Padded(bytes)
    ensures Readable(Cut(b), at, TotalSectors(Parts(e)))
    ensures Segments(Cut(b), at, e, c) == WithBss(bytes, 0, c)
  {
    hide Cut, Padded, Filled, Stream, Copied, Sectors, Long, Flag, TotalSectors, IsHeader, IsClick, TextLen, WithBss;
    TwoSegments(e);
    SegmentPlain(b, at, bytes, c);
  }

  /** Text and data as two segments. */
  lemma ApartIs(b: Bytes, at: nat, e: Bytes, t: Bytes, d: Bytes, k: nat, f: Features, c: nat)
    requires |b| % SECTOR_SIZE == 0 && IsClick(c) && 0 < c <= 0x1_0000 && Sane(e) && IsHeader(e) && Flag(e, A_SEP)
    requires |t| == TextLen(e) && |d| == LastSize(e) && (at + Sectors(|t|) + Sectors(|d|)) * SECTOR_SIZE <= |b|
    requires b[at * SECTOR_SIZE..(at + Sectors(|t|)) * SECTOR_SIZE] == Padded(t)
    requires b[(at + Sectors(|t|)) * SECTOR_SIZE..(at + Sectors(|t|) + Sectors(|d|)) * SECTOR_SIZE] == Padded(d)
    ensures Readable(Cut(b), at, TotalSectors(Parts(e)))
    ensures InMemory(Cut(b), at, e, k, f, c) == WithBss(t, 0, c) + WithBss(d, BssOf(e, k, f), c)
  {
    hide Cut, Padded, UpOf, Zeros, Sectors, Sane, Long, Flag, BssOf, TotalSectors, IsHeader, BssClicks, StackOf,
         Leftover, IsClick, TextLen, WithBss, Segments;
    SegmentsApart(b, at, e, t, d, c);
    Extent(e, k, f, c);
    WithBssLater(d, BssOf(e, k, f), c, BssClicks(e, c, k, f));
    Associative(WithBss(t, 0, c), WithBss(d, 0, c), Zeros(BssClicks(e, c, k, f)));
  }

  lemma SegmentsApart(b: Bytes, at: nat, e: Bytes, t: Bytes, d: Bytes, c: nat)
    requires |b| % SECTOR_SIZE == 0 && IsClick(c) && IsHeader(e) && Flag(e, A_SEP)
    requires |t| == TextLen(e) && |d| == Long(e, DATA) && (at + Sectors(|t|) + Sectors(|d|)) * SECTOR_SIZE <= |b|
    requires b[at * SECTOR_SIZE..(at + Sectors(|t|)) * SECTOR_SIZE] == Padded(t)
    requires b[(at + Sectors(|t|)) * SECTOR_SIZE..(at + Sectors(|t|) + Sectors(|d|)) * SECTOR_SIZE] == Padded(d)
    ensures Readable(Cut(b), at, TotalSectors(Parts(e)))
    ensures Segments(Cut(b), at, e, c) == WithBss(t, 0, c) + WithBss(d, 0, c)
  {
    hide Cut, Padded, Filled, Stream, Copied, Sectors, Long, Flag, TotalSectors, IsHeader, IsClick, TextLen, WithBss;
    TwoSegments(e);
    SegmentPlain(b, at, t, c);
    SegmentPlain(b, at + Sectors(|t|), d, c);
    StreamsMeet(b, at, Sectors(|t|), Sectors(|d|));
  }

  lemma Associative(x: Bytes, y: Bytes, z: Bytes)
    ensures x + y + z == x + (y + z)
  {
  }

  lemma StreamsMeet(b: Bytes, at: nat, m: nat, n: nat)
    requires |b| % SECTOR_SIZE == 0 && (at + m + n) * SECTOR_SIZE <= |b|
    ensures Readable(Cut(b), at, m + n)
  {
    StreamOfCut(b, at, m + n);
  }

  /** What a program of these bytes is in memory. */
  function AsLoaded(t: Bytes, d: Bytes, bss: nat, c: nat, apart: bool): Bytes
    requires c > 0
  {
    if apart then WithBss(t, 0, c) + WithBss(d, bss, c) else WithBss(t + d, bss, c)
  }

  /** What the loader has put into memory for a program of a made image. */
  lemma MemoryIs(b: Bytes, v: nat, front: Bytes, p: Program, tail: Bytes, k: nat, f: Features, c: nat)
    requires Whole(p) && b == front + Entry(p) + tail && |front| == v * SECTOR_SIZE && |b| % SECTOR_SIZE == 0
    requires IsClick(c) && 0 < c <= 0x1_0000 && Sane(HeaderOf(p))
    ensures Readable(Cut(b), v + 1, TotalSectors(Parts(HeaderOf(p))))
    ensures var e, bytes := HeaderOf(p), Contents(p);
            InMemory(Cut(b), v + 1, e, k, f, c)
            == AsLoaded(bytes[..TextLen(e)], bytes[TextLen(e)..], BssOf(e, k, f), c, Flag(e, A_SEP))
  {
    hide Cut, Entry, Body, HeaderOf, Contents, Padded, WithBss, InMemory, Sectors, Sane, Long, Flag, BssOf, TotalSectors, Whole, IsHeader, IsClick,
         TextLen;
    var e, bytes, at := HeaderOf(p), Contents(p), v + 1;
    var t, d := bytes[..TextLen(e)], bytes[TextLen(e)..];
    assert bytes == t + d;
    EntryPlaces(b, v, front, p, tail, t, d);
    HeaderLength(e);
    assert LastSize(e) == if Flag(e, A_SEP) then |d| else |bytes|;
    hide LastSize;
    if Flag(e, A_SEP) {
      ApartIs(b, at, e, t, d, k, f, c);
    } else {
      JointIs(b, at, e, bytes, k, f, c);
    }
  }

  lemma HeaderLength(e: Bytes)
    requires IsHeader(e)
    ensures |e| == EXEC
  {
  }

  /** Where the segments are in the image. */
  lemma EntryPlaces(b: Bytes, v: nat, front: Bytes, p: Program, tail: Bytes, t: Bytes, d: Bytes)
    requires Whole(p) && b == front + Entry(p) + tail && |front| == v * SECTOR_SIZE
    requires Contents(p) == t + d && |t| == TextLen(HeaderOf(p))
    ensures var at := v + 1;
            if Flag(HeaderOf(p), A_SEP) then
              && (at + Sectors(|t|) + Sectors(|d|)) * SECTOR_SIZE <= |b|
              && b[at * SECTOR_SIZE..(at + Sectors(|t|)) * SECTOR_SIZE] == Padded(t)
              && b[(at + Sectors(|t|)) * SECTOR_SIZE..(at + Sectors(|t|) + Sectors(|d|)) * SECTOR_SIZE] == Padded(d)
            else
              && (at + Sectors(|t + d|)) * SECTOR_SIZE <= |b|
              && b[at * SECTOR_SIZE..(at + Sectors(|t + d|)) * SECTOR_SIZE] == Padded(t + d)
  {
    hide Entry, Body, HeaderOf, Contents, Padded, Sectors, Long, Flag, Total, Whole, IsHeader, TextLen;
    var e, at := HeaderOf(p), v + 1;
    EntryBody(p);
    EntryLength(p);
    assert b[at * SECTOR_SIZE..] == Entry(p)[SECTOR_SIZE..] + tail;
    if Flag(e, A_SEP) {
      BodyTwo(t, d);
      BehindSectors(b, at, Padded(t), Padded(d), tail, Sectors(|t|), Sectors(|d|));
    } else {
      BodyOne(t + d);
      assert Padded(t + d) + [] + tail == Padded(t + d) + tail;
      BehindSectors(b, at, Padded(t + d), [], tail, Sectors(|t + d|), 0);
    }
  }

  lemma BehindSectors(b: Bytes, at: nat, x: Bytes, y: Bytes, tail: Bytes, m: nat, n: nat)
    requires at * SECTOR_SIZE <= |b| && b[at * SECTOR_SIZE..] == x + y + tail && |x| == m * SECTOR_SIZE && |y| == n * SECTOR_SIZE
    ensures (at + m + n) * SECTOR_SIZE <= |b| && b[at * SECTOR_SIZE..(at + m) * SECTOR_SIZE] == x
    ensures b[(at + m) * SECTOR_SIZE..(at + m + n) * SECTOR_SIZE] == y
  {
    Behind(b, at * SECTOR_SIZE, x, y, tail);
  }

  lemma Behind(b: Bytes, at: nat, x: Bytes, y: Bytes, tail: Bytes)
    requires at <= |b| && b[at..] == x + y + tail
    ensures at + |x| + |y| <= |b| && b[at..at + |x|] == x && b[at + |x|..at + |x| + |y|] == y
  {
    var r := b[at..];
    assert r[..|x|] == x && r[|x|..|x| + |y|] == y;
  }

  /** Stripping leaves the sizes of bss and stack and the flags of the layout as they are. */
  lemma StrippedSizes(e: Bytes)
    requires IsHeader(e)
    ensures var r := Stripped(e);
            Long(r, BSS) == Long(e, BSS) && Long(r, TOTAL) == Long(e, TOTAL) && Flag(r, A_UZP) == Flag(e, A_UZP)
  {
    if Flag(e, A_NSYM) { assert (e[FLAGS] - A_NSYM) % 2 == e[FLAGS] % 2; }
  }

  /** Text from start on, data from data on, and zeros for bss behind them. */
  ghost predicate Lie(mem: Bytes, start: nat, data: nat, t: Bytes, d: Bytes, bss: nat) {
    && start + |t| <= data && data + |d| + bss <= |mem|
    && mem[start..start + |t|] == t && mem[data..data + |d|] == d
    && forall a :: data + |d| <= a < data + |d| + bss ==> mem[a] == 0
  }

  /** The data begin right behind t bytes of text, or with separate I&D at the next click; from there on there is room for
      rest bytes, and less than a click is wasted.  With A_UZP cs and ds point one click lower. */
  ghost predicate Shaped(proc: Process, apart: bool, uzp: bool, t: nat, rest: int, c: nat)
    requires c > 0
  {
    var down, last := if uzp then c else 0, if apart then proc.data else proc.start;
    && t <= proc.data - proc.start && (if apart then proc.data < proc.start + t + c else proc.data == proc.start + t)
    && (last - proc.start) % c == 0 && (proc.end - last) % c == 0
    && proc.data + rest <= proc.end < proc.data + rest + c
    && proc.cs == proc.start - down && proc.ds == last - down
  }

  /** The program p is in memory as process proc, the k-th of its image, as its own header says. */
  ghost predicate InPlace(mem: Bytes, p: Program, proc: Process, k: nat, f: Features, c: nat)
    requires Whole(p) && c > 0
  {
    var e := Header(p.file).value;
    var apart, aligned, claimed := Flag(e, A_SEP), Flag(e, A_PAL), k > 0 && f.claim;
    var at, text, data := if aligned then 0 else e[HDRLEN], Long(e, TEXT) + (if aligned then e[HDRLEN] else 0), Long(e, DATA);
    var bss := if claimed then 0 else Long(e, BSS);
    var stack := if claimed || !f.chmem then 0 else Long(e, TOTAL) - data - Long(e, BSS) - (if apart then 0 else Long(e, TEXT));
    && at + text + data <= |p.file|
    && Lie(mem, proc.start, proc.data, p.file[at..at + text], p.file[at + text..at + text + data], bss)
    && Shaped(proc, apart, Flag(e, A_UZP), text, data + bss + stack, c)
  }

  /** Of the first k programs so many are selected. */
  function Rank(ps: seq<Program>, k: nat, selected: Bytes -> bool): nat
    requires AllWhole(ps) && k <= |ps|
  {
    if k == 0 then 0 else (if selected(NameField(ps[0].name)) then 1 else 0) + Rank(ps[1..], k - 1, selected)
  }

  lemma {:induction false} PickedAt(ps: seq<Program>, v: nat, selected: Bytes -> bool, k: nat)
    requires AllWhole(ps) && Picked(ps, v, selected).Some? && k <= |ps|
    ensures k == |ps| ==> |Picked(ps, v, selected).value| == Rank(ps, k, selected)
    ensures k < |ps| && selected(NameField(ps[k].name)) ==>
              Rank(ps, k, selected) < |Picked(ps, v, selected).value|
              && Picked(ps, v, selected).value[Rank(ps, k, selected)] == Chosen(v + SectorsIn(ps[..k]) + 1, HeaderOf(ps[k]))
  {
    hide EntrySectors, HeaderOf, NameField, Whole;
    if k > 0 {
      PickedAt(ps[1..], v + EntrySectors(ps[0]), selected, k - 1);
      assert ps[..k][1..] == ps[1..][..k - 1];
    } else {
      assert ps[..0] == [];
    }
  }

  lemma {:induction false} ImageAt(ps: seq<Program>, k: nat) returns (front: Bytes, tail: Bytes)
    requires Image(ps).Some? && AllWhole(ps) && k < |ps|
    ensures Image(ps).value == front + Entry(ps[k]) + tail && |front| == SectorsIn(ps[..k]) * SECTOR_SIZE
  {
    hide Entry, EntrySectors, Whole;
    ImageStep(ps);
    var rest := Image(ps[1..]).value;
    if k == 0 {
      front, tail := [], rest;
      assert ps[..0] == [];
    } else {
      ImageWhole(ps[1..]);
      var middle;
      middle, tail := ImageAt(ps[1..], k - 1);
      front := Entry(ps[0]) + middle;
      EntryLength(ps[0]);
      assert ps[..k][1..] == ps[1..][..k - 1];
      assert ps[..k][0] == ps[0] && SectorsIn(ps[..k]) == EntrySectors(ps[0]) + SectorsIn(ps[1..][..k - 1]);
      assert Entry(ps[0]) + (middle + Entry(ps[k]) + tail) == front + Entry(ps[k]) + tail;
    }
  }

  /** Text at the beginning of x, data and then bss at the beginning of y. */
  lemma BytesThere(mem: Bytes, start: nat, x: Bytes, y: Bytes, t: Bytes, d: Bytes, bss: nat)
    requires start + |x| + |y| <= |mem| && mem[start..start + |x| + |y|] == x + y
    requires t <= x && d <= y && |d| + bss <= |y| && forall i :: |d| <= i < |d| + bss ==> y[i] == 0
    ensures Lie(mem, start, start + |x|, t, d, bss)
  {
    var all, data := mem[start..start + |x| + |y|], start + |x|;
    assert mem[start..data] == all[..|x|] == x;
    assert mem[data..data + |y|] == all[|x|..] == y;
    assert mem[start..start + |t|] == mem[start..data][..|t|];
    assert mem[data..data + |d|] == mem[data..data + |y|][..|d|];
    forall a | data + |d| <= a < data + |d| + bss
      ensures mem[a] == 0
    {
      assert mem[a] == mem[data..data + |y|][a - data];
    }
  }

  /** What the loader makes of the sizes in the header. */
  lemma ProcessExactly(e: Bytes, k: nat, f: Features, start: nat, c: nat)
    requires Sane(e) && c > 0
    ensures var proc, apart, t, rest := ProcessAt(e, k, f, start, c), Flag(e, A_SEP), TextLen(e), Long(e, DATA) + BssOf(e, k, f) + StackOf(e, k, f);
            && proc.start == start && proc.data == (if apart then start + UpOf(t, c) else start + t)
            && Shaped(proc, apart, Flag(e, A_UZP), t, rest, c)
  {
    hide Long, Flag, UpOf, BssOf, StackOf, IsHeader;
    HeaderLength(e);
    var t, rest := TextLen(e), Long(e, DATA) + BssOf(e, k, f) + StackOf(e, k, f);
    UpOfAligned(t, c);
    UpOfAligned(rest, c);
    UpOfAligned(t + rest, c);
    UpOfWhole(t, c);
    UpOfWhole(rest, c);
    UpOfWhole(t + rest, c);
    ModZero(0, c);
  }

  /** The sizes that the loader reads in the image are those of the program's file. */
  lemma SizesAgree(p: Program, k: nat, f: Features)
    requires Whole(p) && Sane(HeaderOf(p))
    ensures var e, r := Header(p.file).value, HeaderOf(p);
            var at := if Flag(e, A_PAL) then 0 else e[HDRLEN];
            && Flag(r, A_SEP) == Flag(e, A_SEP) && Flag(r, A_UZP) == Flag(e, A_UZP)
            && TextLen(r) == Long(e, TEXT) + (if Flag(e, A_PAL) then e[HDRLEN] else 0) && Long(r, DATA) == Long(e, DATA)
            && BssOf(r, k, f) == (if k > 0 && f.claim then 0 else Long(e, BSS))
            && StackOf(r, k, f) == (if (k > 0 && f.claim) || !f.chmem then 0
                                    else Long(e, TOTAL) - Long(e, DATA) - Long(e, BSS) - (if Flag(e, A_SEP) then 0 else Long(e, TEXT)))
            && at + TextLen(r) + Long(r, DATA) <= |p.file| && Contents(p)[..TextLen(r)] == p.file[at..at + TextLen(r)]
            && Contents(p)[TextLen(r)..] == p.file[at + TextLen(r)..at + TextLen(r) + Long(r, DATA)]
  {
    hide Header, Long, Flag, Stripped, Total, Parts;
    var e := Header(p.file).value;
    HeaderLength(e);
    StrippedSame(e);
    StrippedSizes(e);
    TotalOfParts(e);
  }

  lemma WholeHeader(p: Program)
    requires Whole(p)
    ensures Header(p.file).Some? && |Header(p.file).value| == EXEC && Header(p.file).value[HDRLEN] <= EXEC
  {
  }

  lemma ImageLies(mem: Bytes, start: nat, t: Bytes, d: Bytes, bss: nat, c: nat, apart: bool)
    requires c > 0
    requires var m := AsLoaded(t, d, bss, c, apart); start + |m| <= |mem| && mem[start..start + |m|] == m
    ensures Lie(mem, start, if apart then start + UpOf(|t|, c) else start + |t|, t, d, bss)
  {
    hide WithBss, UpOf, Lie;
    if apart {
      BytesThere(mem, start, WithBss(t, 0, c), WithBss(d, bss, c), t, d, bss);
    } else {
      var all := WithBss(t + d, bss, c);
      assert all[..|t|] + all[|t|..] == all && all[..|t|] == (t + d)[..|t|];
      assert all[|t|..][..|d|] == (t + d)[|t|..];
      BytesThere(mem, start, all[..|t|], all[|t|..], t, d, bss);
    }
  }

  lemma ProcessInPlace(mem: Bytes, p: Program, proc: Process, k: nat, f: Features, c: nat)
    requires Whole(p) && Sane(HeaderOf(p)) && c > 0 && proc == ProcessAt(HeaderOf(p), k, f, proc.start, c)
    requires var e, bytes := HeaderOf(p), Contents(p);
             var m := AsLoaded(bytes[..TextLen(e)], bytes[TextLen(e)..], BssOf(e, k, f), c, Flag(e, A_SEP));
             proc.start + |m| <= |mem| && mem[proc.start..proc.start + |m|] == m
    ensures InPlace(mem, p, proc, k, f, c)
  {
    hide Header, HeaderOf, Contents, Long, Flag, UpOf, BssOf, StackOf, TextLen, ProcessAt, Sane, IsHeader, Whole, Lie, Shaped, AsLoaded;
    var e, bytes := HeaderOf(p), Contents(p);
    HeaderLength(e);
    WholeHeader(p);
    ImageLies(mem, proc.start, bytes[..TextLen(e)], bytes[TextLen(e)..], BssOf(e, k, f), c, Flag(e, A_SEP));
    ProcessExactly(e, k, f, proc.start, c);
    SizesAgree(p, k, f);
  }

  /** One program of a made image, once the loader has left it in memory. */
  lemma EntryInPlace(b: Bytes, v: nat, front: Bytes, p: Program, tail: Bytes, mem: Bytes, proc: Process, k: nat, f: Features, c: nat,
                     limit: nat)
    requires Whole(p) && b == front + Entry(p) + tail && |front| == v * SECTOR_SIZE && |b| % SECTOR_SIZE == 0
    requires IsClick(c) && 0 < c <= 0x1_0000 && Sane(HeaderOf(p)) && proc == ProcessAt(HeaderOf(p), k, f, proc.start, c)
    requires Stays(Cut(b), mem, Chosen(v + 1, HeaderOf(p)), proc, k, f, c, limit)
    ensures InPlace(mem, p, proc, k, f, c)
  {
    hide Cut, Entry, HeaderOf, Contents, Flag, WithBss, BssOf, TextLen, ProcessAt, Sane, IsHeader, Whole, InPlace, InMemory, IsClick;
    HeaderLength(HeaderOf(p));
    MemoryIs(b, v, front, p, tail, k, f, c);
    ProcessInPlace(mem, p, proc, k, f, c);
  }

  /** Main result: of an image that make_image has written, once it is loaded, the processes are the selected programs in
      order, and each of them is in memory as its file has it.  (The kernel too, if low memory ends below the extended block
      that K_HIGH puts the others into.) */
  lemma MadeImageIsLoaded(ps: seq<Program>, selected: Bytes -> bool, m: Memory, procs: seq<Process>, f: Features, c: nat, mem: Bytes, k: nat)
    requires Image(ps).Some? && AllWhole(ps) && |Image(ps).value| % SECTOR_SIZE == 0 && Proper(Cut(Image(ps).value))
    requires var image := Cut(Image(ps).value);
             && Loads(image, |image|, selected, m, procs, f, c) && IsClick(c)
             && AllStay(image, mem, AllChosen(image, 0, |image|, selected).value, procs, f, c, m)
    requires k < |ps| && selected(NameField(ps[k].name))
    ensures |procs| == Rank(ps, |ps|, selected) > Rank(ps, k, selected)
    ensures var i := Rank(ps, k, selected);
            (i == KERNEL && f.high ==> m.top <= m.high.base) ==> c > 0 && InPlace(mem, ps[k], procs[i], i, f, c)
  {
    hide Cut, Entry, HeaderOf, NameField, ProcessAt, Sane, Proper, Whole, InPlace, IsClick, AllChosen, Picked, ProcessFits, Declared, Stays,
         Rank, SectorsIn;
    var b := Image(ps).value;
    var image, i := Cut(b), Rank(ps, k, selected);
    ChosenExactly(ps, selected);
    PickedAt(ps, 0, selected, k);
    PickedAt(ps, 0, selected, |ps|);
    var hs := AllChosen(image, 0, |image|, selected).value;
    var v := SectorsIn(ps[..k]);
    assert hs[i] == Chosen(v + 1, HeaderOf(ps[k]));
    assert PutRight(image, hs, procs, f, c, m, i);
    if i == KERNEL && f.high ==> m.top <= m.high.base {
      var front, tail := ImageAt(ps, k);
      assert Stays(image, mem, hs[i], procs[i], i, f, c, LimitOf(i, f, m));
      StartIs(HeaderOf(ps[k]), i, f, StartOf(procs, i, f, c, m), c);
      EntryInPlace(b, v, front, ps[k], tail, mem, procs[i], i, f, c, LimitOf(i, f, m));
    }
  }

  lemma StartIs(e: Bytes, k: nat, f: Features, addr: nat, c: nat)
    requires Sane(e) && c > 0
    ensures ProcessAt(e, k, f, addr, c).start == addr
  {
  }
}
