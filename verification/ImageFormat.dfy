/** The boot image format: boot/installboot.c writes and takes apart what boot/bootimage.c loads. */
module ImageFormat {
  const SECTOR_SIZE: nat := 512
  const IM_NAME_MAX: nat := 63
  const A_MINHDR: nat := 32
  const EXEC: nat := 48
  const FLAGS: nat := 2
  const HDRLEN: nat := 4
  const TEXT: nat := 8
  const DATA: nat := 12
  const SYMS: nat := 28
  const M32 := 0x1_0000_0000

  type Byte = x: int | 0 <= x < 256 witness 0
  type Bytes = seq<Byte>

  datatype Option<T> = None | Some(value: T)

  function Zeros(n: nat): (z: Bytes)
    ensures |z| == n && forall i :: 0 <= i < n ==> z[i] == 0
  {
    if n == 0 then [] else Zeros(n - 1) + [0]
  }

  lemma ZerosOnly(z: Bytes)
    requires forall i :: 0 <= i < |z| ==> z[i] == 0
    ensures z == Zeros(|z|)
  {
  }

  /** align(n) - n zeros follow. */
  function Sectors(n: nat): nat {
    (n + SECTOR_SIZE - 1) / SECTOR_SIZE
  }

  function Padded(b: Bytes): (p: Bytes)
    ensures |p| == Sectors(|b|) * SECTOR_SIZE && b <= p
  {
    b + Zeros(Sectors(|b|) * SECTOR_SIZE - |b|)
  }

  // ---------------------------------------------------------------- a.out headers

  /** A long, least significant byte first. */
  function Long(e: Bytes, at: nat): nat
    requires at + 4 <= |e|
  {
    e[at] as int + 0x100 * (e[at + 1] as int) + 0x1_0000 * (e[at + 2] as int) + 0x100_0000 * (e[at + 3] as int)
  }

  predicate Flag(e: Bytes, bit: nat)
    requires |e| > FLAGS && bit > 0
  {
    e[FLAGS] / bit % 2 == 1
  }

  const A_PAL: nat := 2
  const A_NSYM: nat := 4
  const A_SEP: nat := 32

  /** What read_header accepts.  A header longer than struct exec would not fit into it; the sizes are not
      negative and their sum fits a long. */
  predicate IsHeader(e: Bytes) {
    && |e| == EXEC && e[0] == 1 && e[1] == 3 && A_MINHDR <= e[HDRLEN] <= EXEC
    && Long(e, TEXT) + Long(e, DATA) + e[HDRLEN] + 2 * SECTOR_SIZE < 0x8000_0000
  }

  /** The header as struct exec holds it: what is not in the file is zero. */
  function Header(file: Bytes): (e: Option<Bytes>)
    ensures e.Some? ==> IsHeader(e.value) && |file| >= e.value[HDRLEN] && file[..e.value[HDRLEN]] == e.value[..e.value[HDRLEN]]
  {
    if |file| < A_MINHDR || !(A_MINHDR <= file[HDRLEN] <= EXEC) || |file| < file[HDRLEN] then None
    else
      var e := file[..file[HDRLEN]] + Zeros(EXEC - file[HDRLEN]);
      if IsHeader(e) then Some(e) else None
  }

  /** The symbol table is always stripped off. */
  function Stripped(e: Bytes): (r: Bytes)
    requires IsHeader(e)
    ensures IsHeader(r)
  {
    var flags := if Flag(e, A_NSYM) then e[FLAGS] - A_NSYM else e[FLAGS];
    e[FLAGS := flags][SYMS := 0][SYMS + 1 := 0][SYMS + 2 := 0][SYMS + 3 := 0]
  }

  /** Stripping changes neither the sizes nor the layout, and doing it again changes nothing. */
  lemma StrippedSame(e: Bytes)
    requires IsHeader(e)
    ensures var r := Stripped(e);
            && Long(r, TEXT) == Long(e, TEXT) && Long(r, DATA) == Long(e, DATA) && r[HDRLEN] == e[HDRLEN]
            && Flag(r, A_PAL) == Flag(e, A_PAL) && Flag(r, A_SEP) == Flag(e, A_SEP)
            && Stripped(r) == r
            && (forall i :: 32 <= i < EXEC ==> r[i] == e[i])
  {
    var r := Stripped(e);
    if Flag(e, A_NSYM) { BitCleared(e[FLAGS]); }
    assert r[SYMS] == r[SYMS + 1] == r[SYMS + 2] == r[SYMS + 3] == 0;
    assert Stripped(r) == r;
  }

  lemma BitCleared(f: nat)
    requires f / 4 % 2 == 1
    ensures f >= 4 && (f - 4) / 4 % 2 == 0 && (f - 4) / 2 % 2 == f / 2 % 2 && (f - 4) / 32 % 2 == f / 32 % 2
  {
    var q, r := f / 8, f % 4;
    assert f == 8 * q + 4 + r;
    assert (f - 4) / 4 == 2 * q;
    assert (f - 4) / 2 == 4 * q + r / 2 && f / 2 == 4 * q + 2 + r / 2;
    assert (f - 4) / 32 == q / 4 && f / 32 == q / 4;
  }

  /** The text that make_image copies contains the header if the program is page aligned. */
  function TextLen(e: Bytes): nat
    requires IsHeader(e)
  {
    Long(e, TEXT) + if Flag(e, A_PAL) then e[HDRLEN] else 0
  }

  /** Where the copying starts. */
  function Start(e: Bytes): nat
    requires IsHeader(e)
  {
    if Flag(e, A_PAL) then 0 else e[HDRLEN]
  }

  /** The segments, each padded to whole sectors on its own. */
  function Parts(e: Bytes): (parts: seq<nat>)
    requires IsHeader(e)
  {
    if Flag(e, A_SEP) then [TextLen(e), Long(e, DATA)] else [TextLen(e) + Long(e, DATA)]
  }

  function Total(parts: seq<nat>): nat {
    if parts == [] then 0 else parts[0] + Total(parts[1..])
  }

  function TotalSectors(parts: seq<nat>): nat {
    if parts == [] then 0 else Sectors(parts[0]) + TotalSectors(parts[1..])
  }

  // ---------------------------------------------------------------- make_image()

  function Body(b: Bytes, parts: seq<nat>): (r: Bytes)
    requires |b| == Total(parts)
    ensures |r| == TotalSectors(parts) * SECTOR_SIZE
  {
    if parts == [] then [] else Padded(b[..parts[0]]) + Body(b[parts[0]..], parts[1..])
  }

  /** The program's name, in its field of IM_NAME_MAX + 1 bytes. */
  function NameField(name: Bytes): (f: Bytes)
    requires |name| <= IM_NAME_MAX
    ensures |f| == IM_NAME_MAX + 1
  {
    name + Zeros(IM_NAME_MAX + 1 - |name|)
  }

  function HeaderSector(name: Bytes, e: Bytes): (s: Bytes)
    requires |name| <= IM_NAME_MAX && IsHeader(e)
    ensures |s| == SECTOR_SIZE
  {
    NameField(name) + Stripped(e) + Zeros(SECTOR_SIZE - (IM_NAME_MAX + 1) - EXEC)
  }

  datatype Program = Program(name: Bytes, file: Bytes)

  /** A program that make_image can put into an image: a header, and as many bytes as it says. */
  predicate Whole(p: Program) {
    && |p.name| <= IM_NAME_MAX
    && Header(p.file).Some?
    && var e := Header(p.file).value; Start(e) + Total(Parts(e)) <= |p.file|
  }

  function Entry(p: Program): (b: Bytes)
    requires Whole(p)
    ensures |b| >= SECTOR_SIZE
  {
    var e := Header(p.file).value;
    HeaderSector(p.name, e) + Body(p.file[Start(e)..Start(e) + Total(Parts(e))], Parts(e))
  }

  function Image(ps: seq<Program>): Option<Bytes> {
    if ps == [] then Some([])
    else if !Whole(ps[0]) || Image(ps[1..]) == None then None
    else Some(Entry(ps[0]) + Image(ps[1..]).value)
  }

  // ---------------------------------------------------------------- extract_image()

  /** The bytes before the first NUL. */
  function CString(f: Bytes): Bytes {
    if f == [] || f[0] == 0 then [] else [f[0]] + CString(f[1..])
  }

  /** extractexec() for each segment: its bytes, and the sectors that are left. */
  function Take(image: Bytes, parts: seq<nat>): Option<(Bytes, Bytes)> {
    if parts == [] then Some(([], image))
    else if |image| < Sectors(parts[0]) * SECTOR_SIZE then None
    else
      var more := Take(image[Sectors(parts[0]) * SECTOR_SIZE..], parts[1..]);
      if more == None then None else Some((image[..parts[0]] + more.value.0, more.value.1))
  }

  function ExtractOne(image: Bytes): (r: Option<(Program, Bytes)>)
    ensures r.Some? ==> |r.value.1| < |image|
  {
    if |image| < SECTOR_SIZE then None
    else
      var e := image[IM_NAME_MAX + 1..IM_NAME_MAX + 1 + EXEC];
      if !IsHeader(e) then None
      else
        var taken := Take(image[SECTOR_SIZE..], Parts(e));
        if taken == None then None
        else
          TakeShrinks(image[SECTOR_SIZE..], Parts(e));
          var head := if Flag(e, A_PAL) then [] else e[..e[HDRLEN]];
          Some((Program(CString(image[..IM_NAME_MAX + 1]), head + taken.value.0), taken.value.1))
  }

  lemma {:induction false} TakeShrinks(image: Bytes, parts: seq<nat>)
    ensures var t := Take(image, parts); t.Some? ==> |t.value.1| == |image| - TotalSectors(parts) * SECTOR_SIZE
  {
    if parts != [] && |image| >= Sectors(parts[0]) * SECTOR_SIZE {
      TakeShrinks(image[Sectors(parts[0]) * SECTOR_SIZE..], parts[1..]);
    }
  }

  function Extract(image: Bytes): Option<seq<Program>>
    decreases |image|
  {
    if image == [] then Some([])
    else
      var one := ExtractOne(image);
      if one == None then None
      else
        var more := Extract(one.value.1);
        if more == None then None else Some([one.value.0] + more.value)
  }

  // ---------------------------------------------------------------- the formats agree

  /** proc_size(), in unsigned 32-bit arithmetic */
  function ProcSize(e: Bytes): nat
    requires IsHeader(e)
  {
    var len := Long(e, TEXT) + if Flag(e, A_PAL) then e[HDRLEN] else 0;
    var padded := if Flag(e, A_SEP) then Align(len % M32) else len % M32;
    Align((padded + Long(e, DATA)) % M32) / SECTOR_SIZE
  }

  function Align(n: nat): nat {
    (n + SECTOR_SIZE - 1) % M32 / SECTOR_SIZE * SECTOR_SIZE
  }

  lemma AlignIsSectors(n: nat)
    requires n + SECTOR_SIZE <= M32
    ensures Align(n) == Sectors(n) * SECTOR_SIZE
  {
  }

  lemma WholeSectorsAdd(a: nat, b: nat)
    ensures Sectors(a * SECTOR_SIZE + b) == a + Sectors(b)
  {
    assert a * SECTOR_SIZE + b + SECTOR_SIZE - 1 == a * SECTOR_SIZE + (b + SECTOR_SIZE - 1);
  }

  /** Text and data padded one after the other take as many sectors as they take each. */
  lemma PaddedApart(t: nat, d: nat)
    requires t + d + 2 * SECTOR_SIZE < M32
    ensures Align(Align(t) + d) / SECTOR_SIZE == Sectors(t) + Sectors(d) && Align(t) + d < M32
  {
    AlignIsSectors(t);
    WholeSectorsAdd(Sectors(t), d);
    AlignIsSectors(Sectors(t) * SECTOR_SIZE + d);
  }

  lemma TotalOfTwo(t: nat, d: nat)
    ensures Total([t, d]) == t + d && TotalSectors([t, d]) == Sectors(t) + Sectors(d)
    ensures Total([t]) == t && TotalSectors([t]) == Sectors(t)
  {
    hide Sectors;
    assert [t, d][1..] == [d] && [d][1..] == [] && [t][1..] == [];
    assert Total([d]) == d && TotalSectors([d]) == Sectors(d);
  }

  lemma ProcSizeIsSectors(e: Bytes)
    requires IsHeader(e)
    ensures ProcSize(e) == TotalSectors(Parts(e))
  {
    hide Long, Flag, Align, Sectors, Total, TotalSectors;
    var t, d := TextLen(e), Long(e, DATA);
    PaddedApart(t, d);
    TotalOfTwo(t, d);
    TotalOfTwo(t + d, 0);
    AlignIsSectors(t + d);
    SectorsBack(t + d);
  }

  lemma SectorsBack(n: nat)
    ensures Sectors(n) * SECTOR_SIZE / SECTOR_SIZE == Sectors(n)
  {
  }

  /** What proc_size says of the header in the image is what the entry has behind its first sector. */
  lemma EntrySize(p: Program)
    requires Whole(p)
    ensures var e := Stripped(Header(p.file).value);
            |Entry(p)| == (1 + ProcSize(e)) * SECTOR_SIZE
            && Entry(p)[IM_NAME_MAX + 1..IM_NAME_MAX + 1 + EXEC] == e
  {
    hide Header, Zeros, Long, Flag, Stripped, Total, TotalSectors, Body, NameField;
    var e := Header(p.file).value;
    StrippedSame(e);
    ProcSizeIsSectors(Stripped(e));
    assert Parts(Stripped(e)) == Parts(e);
  }

  lemma TakeStep(first: Bytes, tail: Bytes, parts: seq<nat>)
    requires parts != [] && |first| == Sectors(parts[0]) * SECTOR_SIZE && parts[0] <= |first|
    ensures var more := Take(tail, parts[1..]);
            Take(first + tail, parts) == if more == None then None else Some((first[..parts[0]] + more.value.0, more.value.1))
  {
    hide Sectors;
    assert (first + tail)[|first|..] == tail;
    assert (first + tail)[..parts[0]] == first[..parts[0]];
  }

  lemma {:induction false} TakeBody(b: Bytes, parts: seq<nat>, rest: Bytes)
    requires |b| == Total(parts)
    ensures Take(Body(b, parts) + rest, parts) == Some((b, rest))
  {
    hide Zeros, Padded, Sectors, Take;
    if parts == [] {
      TakeNothing(rest);
      assert Body(b, parts) + rest == rest && b == [];
    } else {
      var first, more := Padded(b[..parts[0]]), Body(b[parts[0]..], parts[1..]);
      assert Body(b, parts) + rest == first + (more + rest);
      TakeBody(b[parts[0]..], parts[1..], rest);
      TakeStep(first, more + rest, parts);
      assert first[..parts[0]] == b[..parts[0]];
      assert b == b[..parts[0]] + b[parts[0]..];
    }
  }

  lemma TakeNothing(rest: Bytes)
    ensures Take(rest, []) == Some(([], rest))
  {
  }

  lemma {:induction false} CStringOfField(name: Bytes, n: nat)
    requires n > 0 && forall i :: 0 <= i < |name| ==> name[i] != 0
    ensures CString(name + Zeros(n)) == name
  {
    var f := name + Zeros(n);
    if name != [] {
      assert f[1..] == name[1..] + Zeros(n);
      CStringOfField(name[1..], n);
    }
  }

  predicate Named(p: Program) {
    forall i :: 0 <= i < |p.name| ==> p.name[i] != 0
  }

  /** The extracted program: same name, and a file that make_image turns into the same entry.  If the program
      is page aligned the file is the beginning of the old one; otherwise its header has been stripped. */
  function Again(p: Program): Program
    requires Whole(p)
  {
    var e := Header(p.file).value;
    Program(p.name, (if Flag(e, A_PAL) then [] else Stripped(e)[..e[HDRLEN]]) + p.file[Start(e)..Start(e) + Total(Parts(e))])
  }

  /** Taking apart an image takes off exactly the first entry. */
  lemma ExtractEntry(p: Program, rest: Bytes)
    requires Whole(p) && Named(p)
    ensures ExtractOne(Entry(p) + rest) == Some((Again(p), rest))
  {
    hide Header, Zeros, Long, Flag, Stripped, Total, TotalSectors, Body, Take, Sectors, CString;
    var e := Header(p.file).value;
    var image := Entry(p) + rest;
    var b := p.file[Start(e)..Start(e) + Total(Parts(e))];
    assert image == HeaderSector(p.name, e) + (Body(b, Parts(e)) + rest);
    assert image[SECTOR_SIZE..] == Body(b, Parts(e)) + rest;
    assert image[..IM_NAME_MAX + 1] == NameField(p.name);
    assert image[IM_NAME_MAX + 1..IM_NAME_MAX + 1 + EXEC] == Stripped(e);
    StrippedSame(e);
    assert Parts(Stripped(e)) == Parts(e);
    TakeBody(b, Parts(e), rest);
    CStringOfField(p.name, IM_NAME_MAX + 1 - |p.name|);
  }

  lemma RebuildEntry(p: Program)
    requires Whole(p)
    ensures Whole(Again(p)) && Entry(Again(p)) == Entry(p) && Again(p).name == p.name
  {
    if Flag(Header(p.file).value, A_PAL) { RebuildAligned(p); } else { RebuildStripped(p); }
  }

  lemma RebuildAligned(p: Program)
    requires Whole(p) && Flag(Header(p.file).value, A_PAL)
    ensures Whole(Again(p)) && Entry(Again(p)) == Entry(p)
  {
    hide Long, Flag, Zeros, Total, Body, HeaderSector, Stripped, IsHeader;
    var e := Header(p.file).value;
    var q := Again(p);
    TotalOfParts(e);
    assert q.file == p.file[..Total(Parts(e))];
    assert q.file[..e[HDRLEN]] == p.file[..e[HDRLEN]];
    assert Header(q.file) == Some(e);
    assert q.file[0..Total(Parts(e))] == p.file[0..Total(Parts(e))];
  }

  lemma RebuildStripped(p: Program)
    requires Whole(p) && !Flag(Header(p.file).value, A_PAL)
    ensures Whole(Again(p)) && Entry(Again(p)) == Entry(p)
  {
    hide Long, Flag, Zeros, Total, Body, HeaderSector, Stripped;
    var e := Header(p.file).value;
    var d, q := Stripped(e), Again(p);
    var h := e[HDRLEN];
    StrippedSame(e);
    assert q.file[..h] == d[..h];
    StrippedHeader(e, d, p.file, q.file);
    assert Parts(d) == Parts(e);
    assert q.file[h..h + Total(Parts(e))] == p.file[h..h + Total(Parts(e))];
    SameSector(p.name, d, e);
  }

  /** A file that begins with the stripped header has just that header. */
  lemma StrippedHeader(e: Bytes, d: Bytes, old_: Bytes, file: Bytes)
    requires IsHeader(e) && d == Stripped(e) && Header(old_) == Some(e)
    requires |file| >= e[HDRLEN] && file[..e[HDRLEN]] == d[..e[HDRLEN]]
    ensures Header(file) == Some(d)
  {
    hide Long, Flag;
    var h := e[HDRLEN];
    StrippedSame(e);
    assert file[HDRLEN] == d[HDRLEN];
    forall i | h <= i < EXEC
      ensures d[i] == 0
    {
      assert e == old_[..h] + Zeros(EXEC - h);
      assert d[i] == e[i];
    }
    assert d == d[..h] + Zeros(EXEC - h);
  }

  lemma SameSector(name: Bytes, d: Bytes, e: Bytes)
    requires |name| <= IM_NAME_MAX && IsHeader(d) && IsHeader(e) && Stripped(d) == Stripped(e)
    ensures HeaderSector(name, d) == HeaderSector(name, e)
  {
  }

  lemma TotalOfParts(e: Bytes)
    requires IsHeader(e)
    ensures Total(Parts(e)) == TextLen(e) + Long(e, DATA)
  {
    hide Long, Flag, Total;
    TotalOfTwo(TextLen(e), Long(e, DATA));
    TotalOfTwo(TextLen(e) + Long(e, DATA), 0);
  }

  function AgainAll(ps: seq<Program>): (qs: seq<Program>)
    requires forall i :: 0 <= i < |ps| ==> Whole(ps[i])
    ensures |qs| == |ps|
  {
    if ps == [] then [] else [Again(ps[0])] + AgainAll(ps[1..])
  }

  lemma {:induction false} ImageNeedsWhole(ps: seq<Program>)
    requires Image(ps).Some?
    ensures forall i :: 0 <= i < |ps| ==> Whole(ps[i])
  {
    if ps != [] {
      ImageNeedsWhole(ps[1..]);
      assert forall i :: 1 <= i < |ps| ==> ps[i] == ps[1..][i - 1];
    }
  }

  /** Main result: every image that make_image makes can be taken apart, into as many programs of the same
      names, and the image made of these is the same image. */
  lemma {:induction false} ExtractThenRebuild(ps: seq<Program>)
    requires Image(ps).Some? && forall i :: 0 <= i < |ps| ==> Named(ps[i])
    ensures (forall i :: 0 <= i < |ps| ==> Whole(ps[i]))
            && Extract(Image(ps).value) == Some(AgainAll(ps))
            && Image(AgainAll(ps)) == Image(ps)
  {
    hide Whole, Named, Entry, Again, ExtractOne;
    ImageNeedsWhole(ps);
    if ps != [] {
      ExtractThenRebuild(ps[1..]);
      ExtractEntry(ps[0], Image(ps[1..]).value);
      RebuildEntry(ps[0]);
      assert AgainAll(ps)[1..] == AgainAll(ps[1..]);
    }
  }

  // ---------------------------------------------------------------- the programs

  /** A file read front to back. */
  class Input {
    const data: Bytes
    var pos: nat

    constructor (data: Bytes)
      ensures this.data == data && pos == 0
    {
      this.data := data;
      pos := 0;
    }

    ghost predicate Valid()
      reads this
    {
      pos <= |data|
    }

    /** What has not been read yet. */
    function Rest(): Bytes
      requires Valid()
      reads this
    {
      data[pos..]
    }

    /** bread() */
    method Read(n: nat) returns (b: Option<Bytes>)
      requires Valid()
      modifies this
      ensures Valid() && b == if n <= |old(Rest())| then Some(old(Rest())[..n]) else None
      ensures b.Some? ==> Rest() == old(Rest())[n..]
    {
      if n > |data| - pos { return None; }
      assert data[pos..][..n] == data[pos..pos + n];
      b := Some(data[pos..pos + n]);
      pos := pos + n;
    }
  }

  class Output {
    var data: Bytes

    constructor ()
      ensures data == []
    {
      data := [];
    }

    method Put(c: Byte)
      modifies this
      ensures data == old(data) + [c]
    {
      data := data + [c];
    }

    method Write(b: Bytes)
      modifies this
      ensures data == old(data) + b
    {
      data := data + b;
    }

    /** padimage() */
    method Pad(n: nat)
      modifies this
      ensures data == old(data) + Zeros(n)
    {
      var left := n;
      while left > 0
        invariant 0 <= left <= n && data == old(data) + Zeros(n - left)
      {
        Put(0);
        left := left - 1;
      }
    }
  }

  /** copyexec(): n bytes, padded to fill a sector; false at a premature end of file. */
  method CopyExec(procf: Input, imagef: Output, n: nat) returns (ok: bool)
    requires procf.Valid()
    modifies procf, imagef
    ensures procf.Valid() && (ok <==> n <= |old(procf.Rest())|)
    ensures ok ==> imagef.data == old(imagef.data) + Padded(old(procf.Rest())[..n])
    ensures ok ==> procf.Rest() == old(procf.Rest())[n..]
  {
    var pad := (n + SECTOR_SIZE - 1) / SECTOR_SIZE * SECTOR_SIZE - n;
    ghost var rest := procf.Rest();
    var left := n;
    while left > 0
      invariant 0 <= left <= n && procf.Valid() && n - left <= |rest|
      invariant procf.Rest() == rest[n - left..]
      invariant imagef.data == old(imagef.data) + rest[..n - left]
    {
      var c := procf.Read(1);
      if c == None { return false; }
      assert rest[..n - left + 1] == rest[..n - left] + [rest[n - left]];
      imagef.Put(c.value[0]);
      left := left - 1;
    }
    imagef.Pad(pad);
    assert old(imagef.data) + rest[..n] + Zeros(pad) == old(imagef.data) + Padded(rest[..n]);
    return true;
  }

  /** The segments of one program. */
  method CopyParts(procf: Input, imagef: Output, e: Bytes) returns (ok: bool)
    requires procf.Valid() && IsHeader(e)
    modifies procf, imagef
    ensures procf.Valid() && (ok <==> Total(Parts(e)) <= |old(procf.Rest())|)
    ensures ok ==> imagef.data == old(imagef.data) + Body(old(procf.Rest())[..Total(Parts(e))], Parts(e))
  {
    hide Zeros, Padded, Sectors, Total, Body, Long, Flag;
    ghost var rest := procf.Rest();
    TotalOfParts(e);
    var text := Long(e, TEXT);
    if Flag(e, A_PAL) { text := text + e[HDRLEN]; }
    if Flag(e, A_SEP) {
      ok := CopyExec(procf, imagef, text);
      if !ok { return; }
      ok := CopyExec(procf, imagef, Long(e, DATA));
      if ok {
        ghost var b := rest[..text + Long(e, DATA)];
        TwoParts(b, text, Long(e, DATA));
        assert b[..text] == rest[..text] && b[text..] == rest[text..][..Long(e, DATA)];
      }
    } else {
      ok := CopyExec(procf, imagef, text + Long(e, DATA));
      if ok { OnePart(rest[..Total(Parts(e))]); }
    }
  }

  lemma TwoParts(b: Bytes, t: nat, d: nat)
    requires |b| == t + d
    ensures Total([t, d]) == t + d && Body(b, [t, d]) == Padded(b[..t]) + Padded(b[t..])
  {
    assert [t, d][1..] == [d] && [d][1..] == [];
    assert Total([d]) == d;
    assert b[t..][..d] == b[t..];
    assert Body(b[t..], [d]) == Padded(b[t..]) + [];
  }

  lemma OnePart(b: Bytes)
    ensures Total([|b|]) == |b| && Body(b, [|b|]) == Padded(b)
  {
    assert [|b|][1..] == [] && b[..|b|] == b;
    assert Body(b, [|b|]) == Padded(b) + [];
  }

  lemma {:induction false} ImageOneMore(ps: seq<Program>, p: Program)
    requires Image(ps).Some? && Whole(p)
    ensures Image(ps + [p]) == Some(Image(ps).value + Entry(p))
  {
    hide Whole, Entry;
    if ps == [] {
      assert [p][1..] == [] && ps + [p] == [p];
      assert Image([p]) == Some(Entry(p) + []);
      assert Entry(p) + [] == Entry(p) == [] + Entry(p);
    } else {
      assert (ps + [p])[1..] == ps[1..] + [p] && (ps + [p])[0] == ps[0];
      ImageOneMore(ps[1..], p);
      assert Entry(ps[0]) + (Image(ps[1..]).value + Entry(p)) == Entry(ps[0]) + Image(ps[1..]).value + Entry(p);
    }
  }

  /** One turn of make_image's loop. */
  method MakeEntry(p: Program, imagef: Output) returns (ok: bool)
    requires |p.name| <= IM_NAME_MAX
    modifies imagef
    ensures ok <==> Whole(p)
    ensures ok ==> imagef.data == old(imagef.data) + Entry(p)
  {
    hide Header, Zeros, Total, Body, Long, Flag, HeaderSector;
    var header := Header(p.file);
    if header == None { return false; }
    var e := header.value;
    var procf := new Input(p.file);
    if !Flag(e, A_PAL) { procf.pos := e[HDRLEN]; }
    imagef.Write(HeaderSector(p.name, e));
    assert procf.Rest() == p.file[Start(e)..];
    ok := CopyParts(procf, imagef, e);
    if ok { assert p.file[Start(e)..][..Total(Parts(e))] == p.file[Start(e)..Start(e) + Total(Parts(e))]; }
  }

  /** make_image() for programs whose files are given; None when it stops with an error. */
  method MakeImage(ps: seq<Program>) returns (image: Option<Bytes>)
    requires forall i :: 0 <= i < |ps| ==> |ps[i].name| <= IM_NAME_MAX
    ensures image == Image(ps)
  {
    hide Whole, Entry;
    var imagef := new Output();
    var i := 0;
    while i < |ps|
      invariant 0 <= i <= |ps| && Image(ps[..i]) == Some(imagef.data)
    {
      var ok := MakeEntry(ps[i], imagef);
      if !ok {
        if Image(ps).Some? { ImageNeedsWhole(ps); }
        return None;
      }
      ImageOneMore(ps[..i], ps[i]);
      assert ps[..i + 1] == ps[..i] + [ps[i]];
      i := i + 1;
    }
    assert ps[..|ps|] == ps;
    return Some(imagef.data);
  }

  /** extractexec(): whole sectors are read, the last one is written in part. */
  method ExtractExec(imagef: Input, procf: Output, count: nat) returns (ok: bool)
    requires imagef.Valid()
    modifies imagef, procf
    ensures imagef.Valid() && (ok <==> Sectors(count) * SECTOR_SIZE <= |old(imagef.Rest())|)
    ensures ok ==> procf.data == old(procf.data) + old(imagef.Rest())[..count]
    ensures ok ==> imagef.Rest() == old(imagef.Rest())[Sectors(count) * SECTOR_SIZE..]
  {
    hide Sectors;
    ghost var rest := imagef.Rest();
    ghost var n := 0;
    var left: int := count;
    while left > 0
      invariant left == count - n * SECTOR_SIZE && left + SECTOR_SIZE > 0 && n <= Sectors(count)
      invariant imagef.Valid() && n * SECTOR_SIZE <= |rest| && imagef.Rest() == rest[n * SECTOR_SIZE..]
      invariant procf.data == old(procf.data) + rest[..if left < 0 then count else n * SECTOR_SIZE]
      invariant left < 0 ==> count <= |rest|
    {
      assert n * SECTOR_SIZE < count && (n + 1) * SECTOR_SIZE <= Sectors(count) * SECTOR_SIZE by { SectorsCover(count, n); }
      var buf := imagef.Read(SECTOR_SIZE);
      if buf == None { return false; }
      var k := if left < SECTOR_SIZE then left else SECTOR_SIZE;
      procf.Write(buf.value[..k]);
      assert rest[..n * SECTOR_SIZE] + rest[n * SECTOR_SIZE..][..k] == rest[..n * SECTOR_SIZE + k];
      left := left - SECTOR_SIZE;
      n := n + 1;
    }
    assert n == Sectors(count) by { SectorsExactly(count, n); }
    return true;
  }

  lemma SectorsCover(count: nat, n: nat)
    requires n * SECTOR_SIZE < count
    ensures n + 1 <= Sectors(count)
  {
  }

  lemma SectorsExactly(count: nat, n: nat)
    requires count <= n * SECTOR_SIZE < count + SECTOR_SIZE
    ensures n == Sectors(count)
  {
  }

  /** One turn of extract_image's loop. */
  method ExtractEntryFrom(imagef: Input) returns (p: Option<Program>)
    requires imagef.Valid()
    modifies imagef
    ensures imagef.Valid()
    ensures p.None? <==> ExtractOne(old(imagef.Rest())).None?
    ensures p.Some? ==> ExtractOne(old(imagef.Rest())) == Some((p.value, imagef.Rest()))
  {
    hide Zeros, Total, Body, Long, Flag, CString, Sectors, Take;
    ghost var image := imagef.Rest();
    var buf := imagef.Read(SECTOR_SIZE);
    if buf == None { return None; }
    var e := buf.value[IM_NAME_MAX + 1..IM_NAME_MAX + 1 + EXEC];
    assert e == image[IM_NAME_MAX + 1..IM_NAME_MAX + 1 + EXEC];
    if !IsHeader(e) { return None; }
    var procf := new Output();
    if !Flag(e, A_PAL) { procf.Write(e[..e[HDRLEN]]); }
    var ok := ExtractParts(imagef, procf, e);
    if !ok { return None; }
    assert buf.value[..IM_NAME_MAX + 1] == image[..IM_NAME_MAX + 1];
    ghost var head := if Flag(e, A_PAL) then [] else e[..e[HDRLEN]];
    assert [] + head == head;
    assert procf.data == head + Take(image[SECTOR_SIZE..], Parts(e)).value.0;
    return Some(Program(CString(buf.value[..IM_NAME_MAX + 1]), procf.data));
  }

  method ExtractParts(imagef: Input, procf: Output, e: Bytes) returns (ok: bool)
    requires imagef.Valid() && IsHeader(e)
    modifies imagef, procf
    ensures imagef.Valid() && (ok <==> Take(old(imagef.Rest()), Parts(e)).Some?)
    ensures ok ==> var t := Take(old(imagef.Rest()), Parts(e)).value; procf.data == old(procf.data) + t.0 && imagef.Rest() == t.1
  {
    hide Long, Flag, Sectors, Take;
    ghost var rest := imagef.Rest();
    var text := Long(e, TEXT);
    if Flag(e, A_PAL) { text := text + e[HDRLEN]; }
    if Flag(e, A_SEP) {
      TakeTwo(rest, text, Long(e, DATA));
      ok := ExtractExec(imagef, procf, text);
      if !ok { return; }
      ok := ExtractExec(imagef, procf, Long(e, DATA));
    } else {
      TakeOne(rest, text + Long(e, DATA));
      ok := ExtractExec(imagef, procf, text + Long(e, DATA));
    }
  }

  lemma TakeOne(image: Bytes, n: nat)
    ensures Take(image, [n]) == if |image| < Sectors(n) * SECTOR_SIZE then None
                                else Some((image[..n], image[Sectors(n) * SECTOR_SIZE..]))
  {
    assert [n][1..] == [];
    if |image| >= Sectors(n) * SECTOR_SIZE {
      TakeNothing(image[Sectors(n) * SECTOR_SIZE..]);
      assert image[..n] + [] == image[..n];
    }
  }

  lemma TakeTwo(image: Bytes, t: nat, d: nat)
    ensures var st, sd := Sectors(t) * SECTOR_SIZE, Sectors(d) * SECTOR_SIZE;
            Take(image, [t, d]) ==
              if |image| < st || |image[st..]| < sd then None
              else Some((image[..t] + image[st..][..d], image[st..][sd..]))
  {
    assert [t, d][1..] == [d];
    if |image| >= Sectors(t) * SECTOR_SIZE { TakeOne(image[Sectors(t) * SECTOR_SIZE..], d); }
  }

  function Then(done: seq<Program>, more: Option<seq<Program>>): Option<seq<Program>> {
    if more == None then None else Some(done + more.value)
  }

  lemma ThenNone(more: Option<seq<Program>>)
    ensures Then([], more) == more
  {
    if more.Some? { assert [] + more.value == more.value; }
  }

  lemma ThenOne(done: seq<Program>, p: Program, more: Option<seq<Program>>)
    ensures Then(done, Then([p], more)) == Then(done + [p], more)
  {
    if more.Some? { assert done + ([p] + more.value) == done + [p] + more.value; }
  }

  /** extract_image(): until the image is used up; None when it stops with an error. */
  method ExtractImage(image: Bytes) returns (ps: Option<seq<Program>>)
    ensures ps == Extract(image)
  {
    hide ExtractOne;
    var imagef := new Input(image);
    var done: seq<Program> := [];
    assert imagef.Rest() == image;
    ThenNone(Extract(image));
    while imagef.pos < |image|
      invariant imagef.Valid() && imagef.data == image
      invariant Extract(image) == Then(done, Extract(imagef.Rest()))
      decreases |image| - imagef.pos
    {
      ghost var rest, before := imagef.Rest(), done;
      var p := ExtractEntryFrom(imagef);
      if p == None { return None; }
      done := done + [p.value];
      ThenOne(before, p.value, Extract(imagef.Rest()));
    }
    assert imagef.Rest() == [];
    assert done + [] == done;
    return Some(done);
  }
}
