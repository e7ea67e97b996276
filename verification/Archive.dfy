/** The archiver: commands/aal/archiver.c rewrites an archive and puts an index of the exported names in front. */
module Archive {
  type Byte = x: int | 0 <= x < 256 witness 0
  type Bytes = seq<Byte>

  const AR_TOTAL: nat := 26
  const AR_NAME: nat := 14
  const MAGIC_SIZE: nat := 2
  const IO_SIZE: nat := 10240

  datatype Option<T> = None | Some(value: T)

  /** A member: its header as it is in the file, and its contents. */
  datatype Item = Item(hdr: Bytes, data: Bytes)

  /** ar_size: two words of two bytes, the high word first. */
  function Size(hdr: Bytes): (n: int)
    requires |hdr| == AR_TOTAL
  {
    var n := (hdr[22] as int + 0x100 * (hdr[23] as int)) * 0x1_0000 + hdr[24] as int + 0x100 * (hdr[25] as int);
    if n >= 0x8000_0000 then n - 0x1_0000_0000 else n
  }

  predicate IsItem(x: Item) {
    |x.hdr| == AR_TOTAL && Size(x.hdr) == |x.data|
  }

  predicate AllItems(xs: seq<Item>) {
    forall i :: 0 <= i < |xs| ==> IsItem(xs[i])
  }

  function Even(n: nat): (r: nat)
    ensures n <= r <= n + 1 && r % 2 == 0
  {
    if n % 2 == 1 then n + 1 else n
  }

  /** How far the members reach: every one is followed by a pad byte if its size is odd. */
  function End(xs: seq<Item>): nat {
    if xs == [] then 0 else End(xs[..|xs| - 1]) + AR_TOTAL + Even(|xs[|xs| - 1].data|)
  }

  lemma EndAppend(xs: seq<Item>, x: Item)
    ensures End(xs + [x]) == End(xs) + AR_TOTAL + Even(|x.data|)
  {
    assert (xs + [x])[..|xs|] == xs;
  }

  lemma {:induction false} EndMonotone(xs: seq<Item>, i: nat)
    requires i <= |xs|
    ensures End(xs[..i]) <= End(xs)
    ensures i < |xs| ==> End(xs[..i]) + AR_TOTAL + |xs[i].data| <= End(xs)
    decreases |xs|
  {
    if i == |xs| {
      assert xs[..i] == xs;
    } else {
      var n := |xs| - 1;
      assert xs[..n][..i] == xs[..i];
      EndMonotone(xs[..n], i);
      if i == n { assert xs[..i] == xs[..n]; }
    }
  }

  /** Header and contents of member i are in the file, where the sizes of those before it put them. */
  predicate Holds(file: Bytes, xs: seq<Item>, i: int)
    requires 0 <= i < |xs|
  {
    var p := End(xs[..i]);
    && p + |xs[i].hdr| + |xs[i].data| <= |file|
    && file[p..p + |xs[i].hdr|] == xs[i].hdr
    && file[p + |xs[i].hdr|..p + |xs[i].hdr| + |xs[i].data|] == xs[i].data
  }

  predicate HoldsAll(file: Bytes, xs: seq<Item>) {
    forall i :: 0 <= i < |xs| ==> Holds(file, xs, i)
  }

  // ---------------------------------------------------------------- the index

  /** struct ranlib */
  datatype Ran = Ran(off: nat, pos: nat)

  /** tab[] and tstrtab[] */
  datatype Index = Index(tab: seq<Ran>, str: Bytes)

  /** The names of one member, entered at its offset, each ended by 0. */
  function Enter(ix: Index, names: seq<Bytes>, pos: nat): (r: Index)
    decreases |names|
  {
    if names == [] then ix
    else
      var before := Enter(ix, names[..|names| - 1], pos);
      Index(before.tab + [Ran(|before.str|, pos)], before.str + names[|names| - 1] + [0])
  }

  /** The index of what has been written; exported gives the names that a member's contents export. */
  function IndexOf(xs: seq<Item>, exported: Bytes -> seq<Bytes>): Index {
    if xs == [] then Index([], [])
    else Enter(IndexOf(xs[..|xs| - 1], exported), exported(xs[|xs| - 1].data), End(xs[..|xs| - 1]))
  }

  /** The name at off in the string table. */
  predicate NameAt(str: Bytes, off: nat, name: Bytes) {
    off + |name| < |str| && str[off..off + |name|] == name && str[off + |name|] == 0
  }

  /** Entry r stands for some name of some member: its position is that of the member's header. */
  ghost predicate Stands(xs: seq<Item>, exported: Bytes -> seq<Bytes>, str: Bytes, r: Ran) {
    exists i, j :: 0 <= i < |xs| && 0 <= j < |exported(xs[i].data)| && StandsFor(xs, exported, str, r, i, j)
  }

  predicate StandsFor(xs: seq<Item>, exported: Bytes -> seq<Bytes>, str: Bytes, r: Ran, i: int, j: int)
    requires 0 <= i < |xs| && 0 <= j < |exported(xs[i].data)|
  {
    r.pos == End(xs[..i]) && NameAt(str, r.off, exported(xs[i].data)[j])
  }

  /** And every name of every member has an entry. */
  ghost predicate Entered(ix: Index, xs: seq<Item>, exported: Bytes -> seq<Bytes>, i: int, j: int)
    requires 0 <= i < |xs| && 0 <= j < |exported(xs[i].data)|
  {
    exists k :: 0 <= k < |ix.tab| && StandsFor(xs, exported, ix.str, ix.tab[k], i, j)
  }

  ghost predicate Agrees(ix: Index, xs: seq<Item>, exported: Bytes -> seq<Bytes>) {
    && (forall k :: 0 <= k < |ix.tab| ==> Stands(xs, exported, ix.str, ix.tab[k]))
    && (forall i, j :: 0 <= i < |xs| && 0 <= j < |exported(xs[i].data)| ==> Entered(ix, xs, exported, i, j))
  }

  /** The part of Agrees for the members before the last and the first n names of the last. */
  ghost predicate AgreesUpTo(ix: Index, xs: seq<Item>, exported: Bytes -> seq<Bytes>, n: nat)
    requires xs != [] && n <= |exported(xs[|xs| - 1].data)|
  {
    && (forall k :: 0 <= k < |ix.tab| ==> Stands(xs, exported, ix.str, ix.tab[k]))
    && (forall i, j :: 0 <= i < |xs| && 0 <= j < (if i == |xs| - 1 then n else |exported(xs[i].data)|) ==> Entered(ix, xs, exported, i, j))
  }

  lemma StillNamed(str: Bytes, more: Bytes, off: nat, name: Bytes)
    requires NameAt(str, off, name)
    ensures NameAt(str + more, off, name)
  {
    assert (str + more)[off..off + |name|] == str[off..off + |name|];
  }

  lemma {:induction false} EnterAgrees(ix: Index, xs: seq<Item>, exported: Bytes -> seq<Bytes>, n: nat)
    requires xs != [] && n <= |exported(xs[|xs| - 1].data)| && AgreesUpTo(ix, xs, exported, 0)
    ensures AgreesUpTo(Enter(ix, exported(xs[|xs| - 1].data)[..n], End(xs[..|xs| - 1])), xs, exported, n)
  {
    var names, pos := exported(xs[|xs| - 1].data), End(xs[..|xs| - 1]);
    if n > 0 {
      EnterAgrees(ix, xs, exported, n - 1);
      assert names[..n][..n - 1] == names[..n - 1];
      var before, after := Enter(ix, names[..n - 1], pos), Enter(ix, names[..n], pos);
      EnterOne(before, after, xs, exported, n - 1);
    } else {
      assert names[..0] == [];
    }
  }

  lemma EnterOne(before: Index, after: Index, xs: seq<Item>, exported: Bytes -> seq<Bytes>, n: nat)
    requires xs != [] && n < |exported(xs[|xs| - 1].data)| && AgreesUpTo(before, xs, exported, n)
    requires var name := exported(xs[|xs| - 1].data)[n];
             after == Index(before.tab + [Ran(|before.str|, End(xs[..|xs| - 1]))], before.str + name + [0])
    ensures AgreesUpTo(after, xs, exported, n + 1)
  {
    var last, name := |xs| - 1, exported(xs[|xs| - 1].data)[n];
    assert after.str == before.str + (name + [0]);
    var r := after.tab[|before.tab|];
    assert after.str[|before.str|..|before.str| + |name|] == name;
    assert StandsFor(xs, exported, after.str, r, last, n);
    forall k | 0 <= k < |after.tab|
      ensures Stands(xs, exported, after.str, after.tab[k])
    {
      if k < |before.tab| {
        assert Stands(xs, exported, before.str, before.tab[k]);
        var i, j :| 0 <= i < |xs| && 0 <= j < |exported(xs[i].data)| && StandsFor(xs, exported, before.str, before.tab[k], i, j);
        StillNamed(before.str, name + [0], before.tab[k].off, exported(xs[i].data)[j]);
        assert StandsFor(xs, exported, after.str, after.tab[k], i, j);
      }
    }
    forall i, j | 0 <= i < |xs| && 0 <= j < (if i == last then n + 1 else |exported(xs[i].data)|)
      ensures Entered(after, xs, exported, i, j)
    {
      if i == last && j == n {
      } else {
        assert Entered(before, xs, exported, i, j);
        var k :| 0 <= k < |before.tab| && StandsFor(xs, exported, before.str, before.tab[k], i, j);
        StillNamed(before.str, name + [0], before.tab[k].off, exported(xs[i].data)[j]);
        assert StandsFor(xs, exported, after.str, after.tab[k], i, j);
      }
    }
  }

  /** One more member changes nothing for those before it. */
  lemma MoreItems(ix: Index, xs: seq<Item>, x: Item, exported: Bytes -> seq<Bytes>)
    requires Agrees(ix, xs, exported)
    ensures AgreesUpTo(ix, xs + [x], exported, 0)
  {
    var ys := xs + [x];
    forall k | 0 <= k < |ix.tab|
      ensures Stands(ys, exported, ix.str, ix.tab[k])
    {
      assert Stands(xs, exported, ix.str, ix.tab[k]);
      var i, j :| 0 <= i < |xs| && 0 <= j < |exported(xs[i].data)| && StandsFor(xs, exported, ix.str, ix.tab[k], i, j);
      assert ys[..i] == xs[..i];
      assert StandsFor(ys, exported, ix.str, ix.tab[k], i, j);
    }
    forall i, j | 0 <= i < |ys| && 0 <= j < (if i == |ys| - 1 then 0 else |exported(ys[i].data)|)
      ensures Entered(ix, ys, exported, i, j)
    {
      assert Entered(ix, xs, exported, i, j);
      var k :| 0 <= k < |ix.tab| && StandsFor(xs, exported, ix.str, ix.tab[k], i, j);
      assert ys[..i] == xs[..i];
      assert StandsFor(ys, exported, ix.str, ix.tab[k], i, j);
    }
  }

  /** The index of what has been written names exactly the exported names, each at its member. */
  lemma {:induction false} IndexAgrees(xs: seq<Item>, exported: Bytes -> seq<Bytes>)
    ensures Agrees(IndexOf(xs, exported), xs, exported)
  {
    if xs != [] {
      var before, x := xs[..|xs| - 1], xs[|xs| - 1];
      IndexAgrees(before, exported);
      assert xs == before + [x];
      MoreItems(IndexOf(before, exported), before, x, exported);
      var names := exported(x.data);
      assert names[..|names|] == names;
      EnterAgrees(IndexOf(before, exported), xs, exported, |names|);
    }
  }

  // ---------------------------------------------------------------- the file that is written

  /** The archive behind its magic number: header and body of the symbol table, then the members. */
  function Whole(magic: Bytes, symHdr: Bytes, body: Bytes, members: Bytes): Bytes {
    magic + symHdr + body + members
  }

  /** Size of the body: the number of entries, two longs for each, the size of the string table, the table. */
  function BodySize(ix: Index): nat {
    4 + 8 * |ix.tab| + 4 + |ix.str|
  }

  /** write_symdef: positions count from the start of the archive. */
  function Shifted(ix: Index, delta: nat): (r: Index)
    ensures |r.tab| == |ix.tab| && r.str == ix.str
    ensures forall k :: 0 <= k < |ix.tab| ==> r.tab[k] == Ran(ix.tab[k].off, ix.tab[k].pos + delta)
  {
    Index(seq(|ix.tab|, k requires 0 <= k < |ix.tab| => Ran(ix.tab[k].off, ix.tab[k].pos + delta)), ix.str)
  }

  /** The string table is padded to an even size. */
  function PaddedIndex(ix: Index): (r: Index)
    ensures |r.str| == Even(|ix.str|) && r.tab == ix.tab
  {
    if |ix.str| % 2 == 1 then Index(ix.tab, ix.str + [0]) else ix
  }

  /** Entry r of the index in the file names something that member i exports, and the header of member i is where
      r says, with its contents behind it. */
  predicate Finds(file: Bytes, xs: seq<Item>, exported: Bytes -> seq<Bytes>, str: Bytes, r: Ran, i: int, j: int)
    requires 0 <= i < |xs| && 0 <= j < |exported(xs[i].data)|
  {
    && NameAt(str, r.off, exported(xs[i].data)[j])
    && r.pos + |xs[i].hdr| + |xs[i].data| <= |file|
    && file[r.pos..r.pos + |xs[i].hdr|] == xs[i].hdr
    && file[r.pos + |xs[i].hdr|..r.pos + |xs[i].hdr| + |xs[i].data|] == xs[i].data
  }

  ghost predicate Leads(file: Bytes, xs: seq<Item>, exported: Bytes -> seq<Bytes>, str: Bytes, r: Ran) {
    exists i, j :: 0 <= i < |xs| && 0 <= j < |exported(xs[i].data)| && Finds(file, xs, exported, str, r, i, j)
  }

  ghost predicate Reached(file: Bytes, xs: seq<Item>, exported: Bytes -> seq<Bytes>, index: Index, i: int, j: int)
    requires 0 <= i < |xs| && 0 <= j < |exported(xs[i].data)|
  {
    exists k :: 0 <= k < |index.tab| && Finds(file, xs, exported, index.str, index.tab[k], i, j)
  }

  /** Every index entry leads to the header of a member that exports the name it gives, and every exported name
      of every member has such an entry. */
  ghost predicate IndexRight(file: Bytes, xs: seq<Item>, exported: Bytes -> seq<Bytes>, index: Index) {
    && (forall k :: 0 <= k < |index.tab| ==> Leads(file, xs, exported, index.str, index.tab[k]))
    && (forall i, j :: 0 <= i < |xs| && 0 <= j < |exported(xs[i].data)| ==> Reached(file, xs, exported, index, i, j))
  }

  /** Main result: that is so in the rewritten archive, with the positions that write_symdef has shifted. */
  lemma IndexFindsMembers(magic: Bytes, symHdr: Bytes, body: Bytes, members: Bytes, xs: seq<Item>, exported: Bytes -> seq<Bytes>)
    requires |magic| == MAGIC_SIZE && |symHdr| == AR_TOTAL && HoldsAll(members, xs)
    requires |body| == BodySize(PaddedIndex(IndexOf(xs, exported)))
    ensures var ix := PaddedIndex(IndexOf(xs, exported));
            IndexRight(Whole(magic, symHdr, body, members), xs, exported, Shifted(ix, MAGIC_SIZE + AR_TOTAL + BodySize(ix)))
  {
    hide Finds, StandsFor, Shifted, PaddedIndex, Whole, HoldsAll;
    var raw := IndexOf(xs, exported);
    var ix := PaddedIndex(raw);
    var index, file := Shifted(ix, MAGIC_SIZE + AR_TOTAL + BodySize(ix)), Whole(magic, symHdr, body, members);
    IndexAgrees(xs, exported);
    forall k | 0 <= k < |index.tab|
      ensures Leads(file, xs, exported, index.str, index.tab[k])
    {
      assert Stands(xs, exported, raw.str, raw.tab[k]);
      var i, j :| 0 <= i < |xs| && 0 <= j < |exported(xs[i].data)| && StandsFor(xs, exported, raw.str, raw.tab[k], i, j);
      FindsOne(magic, symHdr, body, members, xs, exported, k, i, j);
    }
    forall i, j | 0 <= i < |xs| && 0 <= j < |exported(xs[i].data)|
      ensures Reached(file, xs, exported, index, i, j)
    {
      assert Entered(raw, xs, exported, i, j);
      var k :| 0 <= k < |raw.tab| && StandsFor(xs, exported, raw.str, raw.tab[k], i, j);
      FindsOne(magic, symHdr, body, members, xs, exported, k, i, j);
    }
  }

  lemma FindsOne(magic: Bytes, symHdr: Bytes, body: Bytes, members: Bytes, xs: seq<Item>, exported: Bytes -> seq<Bytes>,
                 k: nat, i: nat, j: nat)
    requires |magic| == MAGIC_SIZE && |symHdr| == AR_TOTAL && HoldsAll(members, xs) && i < |xs| && j < |exported(xs[i].data)|
    requires var raw := IndexOf(xs, exported);
             |body| == BodySize(PaddedIndex(raw)) && k < |raw.tab| && StandsFor(xs, exported, raw.str, raw.tab[k], i, j)
    ensures var ix := PaddedIndex(IndexOf(xs, exported));
            Finds(Whole(magic, symHdr, body, members), xs, exported, ix.str, Shifted(ix, MAGIC_SIZE + AR_TOTAL + BodySize(ix)).tab[k], i, j)
  {
    hide IndexOf, End, PaddedIndex, Whole;
    var raw := IndexOf(xs, exported);
    assert Holds(members, xs, i);
    StillNamed(raw.str, [0], raw.tab[k].off, exported(xs[i].data)[j]);
    PaddedKeeps(raw);
    Behind(magic, symHdr, body, members, End(xs[..i]), |xs[i].hdr|, |xs[i].data|);
  }

  lemma PaddedKeeps(ix: Index)
    ensures PaddedIndex(ix).str == ix.str || PaddedIndex(ix).str == ix.str + [0]
  {
  }

  /** What is in the members is in the whole file, behind the rest. */
  lemma Behind(magic: Bytes, symHdr: Bytes, body: Bytes, members: Bytes, p: nat, h: nat, n: nat)
    requires p + h + n <= |members|
    ensures var file, q := Whole(magic, symHdr, body, members), |magic| + |symHdr| + |body| + p;
            q + h + n <= |file| && file[q..q + h] == members[p..p + h] && file[q + h..q + h + n] == members[p + h..p + h + n]
  {
  }

  // ---------------------------------------------------------------- the program: writing

  function Zeros(n: nat): (z: Bytes)
    ensures |z| == n
  {
    if n == 0 then [] else Zeros(n - 1) + [0]
  }

  /** The temporary file, which may have been positioned past its end, and the index built beside it. */
  class Writer {
    const exported: Bytes -> seq<Bytes>
    var data: Bytes
    var at: nat
    var offset: nat
    var tab: seq<Ran>
    var str: Bytes
    ghost var items: seq<Item>

    /** The members written so far are all there, and the index is theirs. */
    ghost predicate Valid()
      reads this
    {
      && AllItems(items) && HoldsAll(data, items)
      && |data| <= at == offset == End(items)
      && Index(tab, str) == IndexOf(items, exported)
    }

    constructor (exported: Bytes -> seq<Bytes>)
      ensures Valid() && items == [] && this.exported == exported
    {
      this.exported := exported;
      data, at, offset, tab, str, items := [], 0, 0, [], [], [];
    }

    /** write(): a gap that seeking has left is filled with zeros. */
    method Write(b: Bytes)
      requires |data| <= at
      modifies this`data, this`at
      ensures at == |data| == old(at) + |b|
      ensures data[..|old(data)|] == old(data) && data[old(at)..] == b
    {
      data := data + Zeros(at - |data|) + b;
      at := |data|;
    }

    /** enter_name() for every exported name of an object. */
    method EnterNames(contents: Bytes)
      modifies this`tab, this`str
      ensures Index(tab, str) == Enter(old(Index(tab, str)), exported(contents), offset)
    {
      var names := exported(contents);
      ghost var ix := Index(tab, str);
      var j := 0;
      assert names[..0] == [];
      while j < |names|
        invariant 0 <= j <= |names| && Index(tab, str) == Enter(ix, names[..j], offset)
      {
        assert names[..j + 1][..j] == names[..j];
        tab := tab + [Ran(|str|, offset)];
        str := str + names[j] + [0];
        j := j + 1;
      }
      assert names[..|names|] == names;
    }

    /** The chunks of copy_member() and add(). */
    method WriteChunks(contents: Bytes)
      requires |data| <= at
      modifies this`data, this`at
      ensures |data| <= at == old(at) + |contents|
      ensures |old(data)| <= |data| && data[..|old(data)|] == old(data)
      ensures contents != [] || old(at) == |old(data)| ==> at == |data| && data[old(at)..] == contents
    {
      ghost var before, start := data, at;
      var done := 0;
      while done < |contents|
        invariant 0 <= done <= |contents| && |data| <= at == start + done
        invariant |before| <= |data| && data[..|before|] == before
        invariant done > 0 || start == |before| ==> at == |data| && data[start..] == contents[..done]
      {
        var rest := if |contents| - done > IO_SIZE then IO_SIZE else |contents| - done;
        ghost var was := data;
        Write(contents[done..done + rest]);
        assert contents[..done] + contents[done..done + rest] == contents[..done + rest];
        assert data[..|before|] == was[..|before|];
        if done > 0 { assert data[start..] == was[start..] + contents[done..done + rest]; }
        done := done + rest;
      }
      assert contents[..|contents|] == contents;
    }

    /** wr_arhdr() and copy_member(): an odd member is followed by a gap of one byte, which is not written. */
    method Copy(x: Item)
      requires Valid() && IsItem(x)
      modifies this
      ensures Valid() && items == old(items) + [x]
    {
      ghost var before := data;
      Write(x.hdr);
      ghost var withHdr := data;
      EnterNames(x.data);
      WriteChunks(x.data);
      if |x.data| % 2 == 1 { at := at + 1; }
      offset := offset + AR_TOTAL + Even(|x.data|);
      WrittenBehind(before, withHdr, data, items, x);
      items := items + [x];
    }

    /** add(): the pad byte of an odd member is whatever is in the buffer. */
    method Add(x: Item, stale: Byte)
      requires Valid() && IsItem(x)
      modifies this
      ensures Valid() && items == old(items) + [x]
    {
      ghost var before := data;
      Write(x.hdr);
      ghost var withHdr := data;
      EnterNames(x.data);
      offset := offset + AR_TOTAL + Even(|x.data|);
      WriteChunks(x.data);
      WrittenBehind(before, withHdr, data, items, x);
      items := items + [x];
      if |x.data| % 2 == 1 {
        ghost var written := data;
        Write([stale]);
        StillHolds(written, data, items);
      }
    }
  }

  lemma SameSlice(file: Bytes, more: Bytes, a: nat, b: nat)
    requires |file| <= |more| && more[..|file|] == file && a <= b <= |file|
    ensures more[a..b] == file[a..b]
  {
    forall i | a <= i < b
      ensures more[i] == file[i]
    {
      assert more[..|file|][i] == more[i];
    }
  }

  lemma StillHolds(file: Bytes, more: Bytes, xs: seq<Item>)
    requires HoldsAll(file, xs) && |file| <= |more| && more[..|file|] == file
    ensures HoldsAll(more, xs)
  {
    forall i | 0 <= i < |xs|
      ensures Holds(more, xs, i)
    {
      assert Holds(file, xs, i);
      var p, h, n := End(xs[..i]), |xs[i].hdr|, |xs[i].data|;
      SameSlice(file, more, p, p + h);
      SameSlice(file, more, p + h, p + h + n);
    }
  }

  lemma WrittenBehind(before: Bytes, withHdr: Bytes, file: Bytes, xs: seq<Item>, x: Item)
    requires AllItems(xs) && IsItem(x) && HoldsAll(before, xs) && |before| <= End(xs)
    requires |withHdr| == End(xs) + AR_TOTAL && withHdr[..|before|] == before && withHdr[End(xs)..] == x.hdr
    requires |file| == |withHdr| + |x.data| && file[..|withHdr|] == withHdr && file[|withHdr|..] == x.data
    ensures AllItems(xs + [x]) && HoldsAll(file, xs + [x]) && End(xs + [x]) == End(xs) + AR_TOTAL + Even(|x.data|)
  {
    var ys, p := xs + [x], End(xs);
    EndAppend(xs, x);
    SameSlice(withHdr, file, 0, |before|);
    SameSlice(withHdr, file, p, p + AR_TOTAL);
    StillHolds(before, file, xs);
    forall i | 0 <= i < |ys|
      ensures Holds(file, ys, i)
    {
      if i < |xs| {
        assert Holds(file, xs, i) && ys[..i] == xs[..i];
      } else {
        assert ys[..i] == xs;
        assert withHdr[p..p + AR_TOTAL] == x.hdr;
      }
    }
  }

  // ---------------------------------------------------------------- the program: reading

  datatype Command = Append | Replace(update: bool) | Delete

  /** What is given for one name on the command line: the file, unless it cannot be read, and whether it is not
      newer than the member of its name. */
  datatype Given = Given(name: Bytes, file: Option<Item>, old_: bool, stale: Byte)

  predicate GivenOk(g: Given) {
    g.file.Some? ==> IsItem(g.file.value)
  }

  function CharAt(b: Bytes, i: nat): Byte {
    if i < |b| then b[i] else 0
  }

  predicate EqualFrom(a: Bytes, b: Bytes, i: nat)
    requires i <= AR_NAME
    decreases AR_NAME - i
  {
    i == AR_NAME || (CharAt(a, i) == CharAt(b, i) && (CharAt(a, i) == 0 || EqualFrom(a, b, i + 1)))
  }

  /** equal(): as strncmp() compares at most 14 characters, up to a 0. */
  predicate Equal(a: Bytes, b: Bytes) {
    EqualFrom(a, b, 0)
  }

  lemma {:induction false} EqualSelf(a: Bytes, i: nat)
    requires i <= AR_NAME
    ensures EqualFrom(a, a, i)
    decreases AR_NAME - i
  {
    if i < AR_NAME { EqualSelf(a, i + 1); }
  }

  /** The first argument that has not been used and names the member, |args| if there is none. */
  function Match(args: seq<Given>, used: set<nat>, hdr: Bytes, i: nat): (k: nat)
    requires |hdr| == AR_TOTAL && i <= |args|
    ensures i <= k <= |args|
    decreases |args| - i
  {
    if i == |args| || (i !in used && Equal(args[i].name, hdr[..AR_NAME])) then i else Match(args, used, hdr, i + 1)
  }

  const SYMDEF: Bytes := [95, 95, 46, 83, 89, 77, 68, 69, 70, 0, 0, 0, 0, 0]

  /** What becomes of a member. */
  datatype Fate = Copied | Replaced(k: nat) | KeptOld | Dropped

  function FateOf(cmd: Command, args: seq<Given>, k: nat): (f: Fate)
    requires k <= |args|
    ensures f.Replaced? ==> f.k < |args|
  {
    if k == |args| || cmd == Append then Copied
    else match cmd
      case Delete => Dropped
      case Replace(update) => if update && args[k].old_ then KeptOld else Replaced(k)
      case Append => Copied
  }

  /** What is written in place of member x: nothing if the file to replace it cannot be read. */
  function Here(x: Item, fate: Fate, args: seq<Given>): seq<Item>
    requires fate.Replaced? ==> fate.k < |args|
  {
    match fate
    case Copied => [x]
    case KeptOld => [x]
    case Replaced(k) => if args[k].file.Some? then [args[k].file.value] else []
    case Dropped => []
  }

  function Using(args: seq<Given>, used: set<nat>, hdr: Bytes): set<nat>
    requires |hdr| == AR_TOTAL
  {
    var k := Match(args, used, hdr, 0);
    if k < |args| then used + {k} else used
  }

  /** One turn of the loop: it stops with an error, or writes something and goes on at next. */
  datatype Turn = Stop | Go(here: seq<Item>, next: nat, used: set<nat>)

  /** A header that is cut short is an error, like a negative size, and contents that are cut short when they are
      copied.  A member that is kept because it is newer is skipped a second time. */
  function TurnAt(old_: Bytes, pos: nat, cmd: Command, args: seq<Given>, used: set<nat>): (t: Turn)
    requires pos < |old_|
    ensures t.Go? ==> t.next > pos
  {
    var start := pos + AR_TOTAL;
    if start > |old_| then Stop
    else
      var hdr := old_[pos..start];
      var n := Size(hdr);
      var fate := FateOf(cmd, args, Match(args, used, hdr, 0));
      if n < 0 then Stop
      else if Equal(hdr[..AR_NAME], SYMDEF) then Go([], start + n, used)
      else if (fate == Copied || fate == KeptOld) && start + n > |old_| then Stop
      else
        var data := if start + n <= |old_| then old_[start..start + n] else [];
        Go(Here(Item(hdr, data), fate, args), start + Even(n) + (if fate == KeptOld then Even(n) else 0), Using(args, used, hdr))
  }

  /** The members that the rewriting loop writes, reading the old archive from pos on; None if it stops with an
      error. */
  function Rewritten(old_: Bytes, pos: nat, cmd: Command, args: seq<Given>, used: set<nat>): (r: Option<(seq<Item>, set<nat>)>)
    decreases |old_| - pos
  {
    if pos >= |old_| then Some(([], used))
    else
      match TurnAt(old_, pos, cmd, args, used)
      case Stop => None
      case Go(here, next, used') => Then(here, Rewritten(old_, next, cmd, args, used'))
  }

  /** One turn of the loop over the members of the old archive. */
  method RewriteOne(old_: Bytes, pos: nat, cmd: Command, args: seq<Given>, used0: set<nat>, w: Writer)
    returns (ok: bool, next: nat, used: set<nat>, ghost here: seq<Item>)
    requires w.Valid() && pos < |old_| && forall i :: 0 <= i < |args| ==> GivenOk(args[i])
    modifies w
    ensures w.Valid() && (ok ==> next > pos && w.items == old(w.items) + here)
    ensures TurnAt(old_, pos, cmd, args, used0) == if ok then Go(here, next, used) else Stop
  {
    hide Size, Writer.Valid, Match, IsItem;
    next, used, here := pos, used0, [];
    ok := pos + AR_TOTAL <= |old_|;
    if !ok { return; }
    var hdr := old_[pos..pos + AR_TOTAL];
    var n := Size(hdr);
    next := pos + AR_TOTAL;
    ok := n >= 0;
    if !ok { return; }
    if Equal(hdr[..AR_NAME], SYMDEF) {
      next := next + n;
      assert old(w.items) + [] == w.items;
      return;
    }
    var k := FindMatch(args, used, hdr);
    if k < |args| { used := used + {k}; }
    var fate := FateOf(cmd, args, k);
    if fate == Copied || fate == KeptOld {
      ok := next + n <= |old_|;
      if !ok { return; }
      var x := Item(hdr, old_[next..next + n]);
      assert IsItem(x) by { SizedItem(x); }
      here := [x];
      w.Copy(x);
    } else if fate.Replaced? && args[fate.k].file.Some? {
      here := [args[fate.k].file.value];
      w.Add(args[fate.k].file.value, args[fate.k].stale);
    }
    next := next + Even(n);
    if fate == KeptOld { next := next + Even(n); }
    assert w.items == old(w.items) + here;
  }

  lemma SizedItem(x: Item)
    requires |x.hdr| == AR_TOTAL && Size(x.hdr) == |x.data|
    ensures IsItem(x)
  {
  }

  /** The loop over the members of the old archive. */
  method RewriteMembers(old_: Bytes, cmd: Command, args: seq<Given>, w: Writer) returns (ok: bool, used: set<nat>)
    requires w.Valid() && forall i :: 0 <= i < |args| ==> GivenOk(args[i])
    modifies w
    ensures w.Valid()
    ensures ok <==> Rewritten(old_, 0, cmd, args, {}).Some?
    ensures ok ==> var r := Rewritten(old_, 0, cmd, args, {}).value; w.items == old(w.items) + r.0 && used == r.1
  {
    hide Writer.Valid, Rewritten, TurnAt;
    var pos := 0;
    used := {};
    ok := true;
    ghost var before := w.items;
    ghost var written: seq<Item> := [];
    assert before + written == before;
    ThenMore([], [], Rewritten(old_, 0, cmd, args, {}));
    while pos < |old_|
      invariant w.Valid() && w.items == before + written
      invariant Rewritten(old_, 0, cmd, args, {}) == Then(written, Rewritten(old_, pos, cmd, args, used))
      decreases |old_| - pos
    {
      ghost var here;
      NextTurn(old_, pos, cmd, args, used);
      ok, pos, used, here := RewriteOne(old_, pos, cmd, args, used, w);
      if !ok { return; }
      ThenMore(written, here, Rewritten(old_, pos, cmd, args, used));
      assert before + written + here == before + (written + here);
      written := written + here;
    }
    ok := true;
    NothingLeft(old_, pos, cmd, args, used);
    assert written + [] == written;
  }

  lemma NextTurn(old_: Bytes, pos: nat, cmd: Command, args: seq<Given>, used: set<nat>)
    requires pos < |old_|
    ensures Rewritten(old_, pos, cmd, args, used) == match TurnAt(old_, pos, cmd, args, used)
                                                     case Stop => None
                                                     case Go(here, next, after) => Then(here, Rewritten(old_, next, cmd, args, after))
  {
  }

  lemma NothingLeft(old_: Bytes, pos: nat, cmd: Command, args: seq<Given>, used: set<nat>)
    requires pos >= |old_|
    ensures Rewritten(old_, pos, cmd, args, used) == Some(([], used))
  {
  }

  function Then(written: seq<Item>, more: Option<(seq<Item>, set<nat>)>): Option<(seq<Item>, set<nat>)> {
    if more == None then None else Some((written + more.value.0, more.value.1))
  }

  lemma ThenMore(a: seq<Item>, b: seq<Item>, more: Option<(seq<Item>, set<nat>)>)
    ensures Then(a, Then(b, more)) == Then(a + b, more) && Then([], more) == more
  {
    if more.Some? {
      assert a + (b + more.value.0) == a + b + more.value.0;
      assert [] + more.value.0 == more.value.0;
    }
  }

  method FindMatch(args: seq<Given>, used: set<nat>, hdr: Bytes) returns (k: nat)
    requires |hdr| == AR_TOTAL
    ensures k == Match(args, used, hdr, 0)
  {
    k := 0;
    while k < |args|
      invariant 0 <= k <= |args| && Match(args, used, hdr, k) == Match(args, used, hdr, 0)
    {
      if k !in used && Equal(args[k].name, hdr[..AR_NAME]) { return; }
      k := k + 1;
    }
  }

  /** What a rewrite should keep, member by member: everything that is not named, in order; for a named member
      its replacement, or nothing. */
  function Kept(ms: seq<Item>, cmd: Command, args: seq<Given>, used: set<nat>): (r: (seq<Item>, set<nat>))
    requires AllItems(ms)
  {
    if ms == [] then ([], used)
    else
      var k := Match(args, used, ms[0].hdr, 0);
      var fate := FateOf(cmd, args, k);
      var here := Here(ms[0], fate, args);
      var more := Kept(ms[1..], cmd, args, if k < |args| then used + {k} else used);
      (here + more.0, more.1)
  }

  /** The file consists of these members (the pad byte of the last one may be missing); none is a symbol table. */
  ghost predicate Consists(file: Bytes, ms: seq<Item>) {
    AllItems(ms) && HoldsAll(file, ms) && |file| <= End(ms) && forall i :: 0 <= i < |ms| ==> !Equal(ms[i].hdr[..AR_NAME], SYMDEF)
  }

  /** One member of a sound archive: what it becomes, and where reading goes on. */
  lemma RewrittenStep(file: Bytes, ms: seq<Item>, i: nat, cmd: Command, args: seq<Given>, used: set<nat>)
    requires Consists(file, ms) && i < |ms|
    ensures var k, n := Match(args, used, ms[i].hdr, 0), |ms[i].data|;
            var fate := FateOf(cmd, args, k);
            var next := End(ms[..i + 1]) + if fate == KeptOld then Even(n) else 0;
            Rewritten(file, End(ms[..i]), cmd, args, used)
            == Then(Here(ms[i], fate, args), Rewritten(file, next, cmd, args, if k < |args| then used + {k} else used))
  {
    hide Size, Match, HoldsAll, Here, FateOf, End, TurnAt, Rewritten, Equal;
    HeldAt(file, ms, i);
    EndStep(ms, i);
    TurnOf(file, End(ms[..i]), ms[i], cmd, args, used);
    NextTurn(file, End(ms[..i]), cmd, args, used);
  }

  lemma TurnOf(file: Bytes, p: nat, x: Item, cmd: Command, args: seq<Given>, used: set<nat>)
    requires IsItem(x) && !Equal(x.hdr[..AR_NAME], SYMDEF) && p + AR_TOTAL + |x.data| <= |file|
    requires file[p..p + AR_TOTAL] == x.hdr && file[p + AR_TOTAL..p + AR_TOTAL + |x.data|] == x.data
    ensures var k, n := Match(args, used, x.hdr, 0), |x.data|;
            var fate := FateOf(cmd, args, k);
            TurnAt(file, p, cmd, args, used)
            == Go(Here(x, fate, args), p + AR_TOTAL + Even(n) + (if fate == KeptOld then Even(n) else 0), Using(args, used, x.hdr))
  {
    hide Size, Match, Here, FateOf, Equal, Even;
  }

  /** Main result on members: without the u flag an archive is rewritten member by member as it should be. */
  lemma {:induction false} RewrittenExactly(file: Bytes, ms: seq<Item>, i: nat, cmd: Command, args: seq<Given>, used: set<nat>)
    requires Consists(file, ms) && i <= |ms| && cmd != Replace(true)
    ensures AllItems(ms[i..]) && Rewritten(file, End(ms[..i]), cmd, args, used) == Some(Kept(ms[i..], cmd, args, used))
    decreases |ms| - i
  {
    hide Size, Match, HoldsAll, Here, End, Rewritten;
    assert AllItems(ms[i..]);
    if i == |ms| {
      assert ms[..i] == ms;
      NothingLeft(file, End(ms), cmd, args, used);
    } else {
      assert ms[i..][1..] == ms[i + 1..];
      var k := Match(args, used, ms[i].hdr, 0);
      RewrittenStep(file, ms, i, cmd, args, used);
      RewrittenExactly(file, ms, i + 1, cmd, args, if k < |args| then used + {k} else used);
    }
  }

  lemma HeldAt(file: Bytes, ms: seq<Item>, i: nat)
    requires AllItems(ms) && HoldsAll(file, ms) && i < |ms|
    ensures var p := End(ms[..i]);
            && p + AR_TOTAL + |ms[i].data| <= |file| && file[p..p + AR_TOTAL] == ms[i].hdr
            && Item(ms[i].hdr, file[p + AR_TOTAL..p + AR_TOTAL + |ms[i].data|]) == ms[i] && Size(ms[i].hdr) == |ms[i].data|
  {
    assert Holds(file, ms, i);
  }

  lemma EndStep(ms: seq<Item>, i: nat)
    requires i < |ms|
    ensures End(ms[..i + 1]) == End(ms[..i]) + AR_TOTAL + Even(|ms[i].data|)
  {
    assert ms[..i + 1] == ms[..i] + [ms[i]];
    EndAppend(ms[..i], ms[i]);
  }

  // ---------------------------------------------------------------- which argument is for which member

  /** The name of a member is at most 14 characters, and ends at a 0. */
  predicate SameName(a: Bytes, b: Bytes) {
    forall i :: 0 <= i < AR_NAME && (forall j :: 0 <= j < i ==> CharAt(a, j) != 0) ==> CharAt(a, i) == CharAt(b, i)
  }

  lemma {:induction false} EqualExactly(a: Bytes, b: Bytes, n: nat)
    requires n <= AR_NAME && forall j :: 0 <= j < n ==> CharAt(a, j) == CharAt(b, j) != 0
    ensures EqualFrom(a, b, n) <==> SameName(a, b)
    decreases AR_NAME - n
  {
    if n < AR_NAME && CharAt(a, n) == CharAt(b, n) != 0 { EqualExactly(a, b, n + 1); }
  }

  /** asg[i] is the argument for member i, -1 if there is none: the first one that names it and is not for an earlier
      member. */
  ghost predicate Assigned(ms: seq<Item>, args: seq<Given>, asg: seq<int>) {
    |asg| == |ms| && forall i :: 0 <= i < |ms| ==> AssignedAt(ms, args, asg, i)
  }

  ghost predicate AssignedAt(ms: seq<Item>, args: seq<Given>, asg: seq<int>, i: nat)
    requires i < |ms| && i < |asg|
  {
    && -1 <= asg[i] < |args|
    && (asg[i] >= 0 ==> Free(ms, args, asg, i, asg[i]))
    && forall k :: 0 <= k < (if asg[i] >= 0 then asg[i] else |args|) ==> !Free(ms, args, asg, i, k)
  }

  /** Argument k names member i and is not for an earlier member. */
  ghost predicate Free(ms: seq<Item>, args: seq<Given>, asg: seq<int>, i: nat, k: nat)
    requires i < |ms| && i < |asg| && k < |args|
  {
    SameName(args[k].name, NameOf(ms[i])) && forall j :: 0 <= j < i ==> asg[j] != k
  }

  function NameOf(x: Item): Bytes {
    if |x.hdr| >= AR_NAME then x.hdr[..AR_NAME] else x.hdr
  }

  /** What should be written for a member: r replaces a named one by its file, unless u finds the member newer, and drops it
      if there is no file to read; d drops it; a keeps it, as all three keep the others. */
  function Wanted(x: Item, cmd: Command, args: seq<Given>, k: int): seq<Item>
    requires k < |args|
  {
    if k < 0 || cmd == Append || (cmd == Replace(true) && args[k].old_) then [x]
    else if cmd == Delete || args[k].file == None then []
    else [args[k].file.value]
  }

  function AllWanted(ms: seq<Item>, cmd: Command, args: seq<Given>, asg: seq<int>): seq<Item>
    requires |asg| == |ms| && forall i :: 0 <= i < |asg| ==> asg[i] < |args|
  {
    if ms == [] then [] else Wanted(ms[0], cmd, args, asg[0]) + AllWanted(ms[1..], cmd, args, asg[1..])
  }

  /** What the search finds. */
  lemma {:induction false} MatchExactly(args: seq<Given>, used: set<nat>, hdr: Bytes, n: nat)
    requires |hdr| == AR_TOTAL && n <= |args|
    ensures var k := Match(args, used, hdr, n);
            && (k < |args| ==> k !in used && SameName(args[k].name, hdr[..AR_NAME]))
            && forall j :: n <= j < k ==> j in used || !SameName(args[j].name, hdr[..AR_NAME])
    decreases |args| - n
  {
    hide SameName, EqualFrom;
    if n < |args| {
      EqualExactly(args[n].name, hdr[..AR_NAME], 0);
      MatchExactly(args, used, hdr, n + 1);
    }
  }

  /** The arguments that are for the first n members. */
  function Taken(asg: seq<int>, n: nat): set<nat>
    requires n <= |asg|
  {
    set j | 0 <= j < n && asg[j] >= 0 :: asg[j]
  }

  /** The argument found for member n, when those for the members before it are used up, is the one assigned. */
  lemma MatchAssigned(ms: seq<Item>, args: seq<Given>, asg: seq<int>, n: nat)
    requires AllItems(ms) && Assigned(ms, args, asg) && n < |ms|
    ensures Match(args, Taken(asg, n), ms[n].hdr, 0) == if asg[n] >= 0 then asg[n] else |args|
    ensures Taken(asg, n + 1) == if asg[n] >= 0 then Taken(asg, n) + {asg[n]} else Taken(asg, n)
  {
    hide SameName, Match;
    var used := Taken(asg, n);
    var k := Match(args, used, ms[n].hdr, 0);
    MatchExactly(args, used, ms[n].hdr, 0);
    assert AssignedAt(ms, args, asg, n) && NameOf(ms[n]) == ms[n].hdr[..AR_NAME];
    if k < |args| { assert Free(ms, args, asg, n, k); }
    if asg[n] >= 0 { assert Free(ms, args, asg, n, asg[n]); }
  }

  /** Main result on what a rewrite should keep: member by member, what is wanted for the argument assigned to it. */
  lemma {:induction false} KeptExactly(ms: seq<Item>, cmd: Command, args: seq<Given>, asg: seq<int>, n: nat)
    requires AllItems(ms) && Assigned(ms, args, asg) && n <= |ms|
    ensures AllItems(ms[n..]) && forall i :: 0 <= i < |asg[n..]| ==> asg[n..][i] < |args|
    ensures Kept(ms[n..], cmd, args, Taken(asg, n)) == (AllWanted(ms[n..], cmd, args, asg[n..]), Taken(asg, |ms|))
    decreases |ms| - n
  {
    hide Match, Taken, Free;
    forall i | 0 <= i < |asg[n..]|
      ensures asg[n..][i] < |args|
    {
      assert AssignedAt(ms, args, asg, n + i);
    }
    if n < |ms| {
      MatchAssigned(ms, args, asg, n);
      KeptExactly(ms, cmd, args, asg, n + 1);
      assert ms[n..][1..] == ms[n + 1..] && asg[n..][1..] == asg[n + 1..];
    }
  }

  /** There is always such an assignment. */
  lemma {:induction false} AssignmentExists(ms: seq<Item>, args: seq<Given>) returns (asg: seq<int>)
    requires AllItems(ms)
    ensures Assigned(ms, args, asg)
  {
    hide SameName, Match;
    asg := [];
    if ms != [] {
      var n := |ms| - 1;
      var before := AssignmentExists(ms[..n], args);
      var used := Taken(before, n);
      var k := Match(args, used, ms[n].hdr, 0);
      MatchExactly(args, used, ms[n].hdr, 0);
      asg := before + [if k < |args| then k else -1];
      forall i | 0 <= i < |ms|
        ensures AssignedAt(ms, args, asg, i)
      {
        if i < n {
          assert AssignedAt(ms[..n], args, before, i);
          assert asg[i] == before[i];
          forall j | 0 <= j < |args|
            ensures Free(ms, args, asg, i, j) <==> Free(ms[..n], args, before, i, j)
          {
            SameFree(ms, args, asg, before, i, j);
          }
        } else {
          OneFree(ms, args, asg, before, k);
        }
      }
    }
  }

  lemma SameFree(ms: seq<Item>, args: seq<Given>, asg: seq<int>, before: seq<int>, i: nat, k: nat)
    requires ms != [] && i < |before| == |ms| - 1 && before <= asg && k < |args|
    ensures Free(ms, args, asg, i, k) <==> Free(ms[..|ms| - 1], args, before, i, k)
  {
    hide SameName;
    assert forall j :: 0 <= j < i ==> asg[j] == before[j];
  }

  lemma OneFree(ms: seq<Item>, args: seq<Given>, asg: seq<int>, before: seq<int>, k: nat)
    requires AllItems(ms) && ms != [] && |before| == |ms| - 1 && asg == before + [if k < |args| then k else -1]
    requires k <= |args| && k == Match(args, Taken(before, |ms| - 1), ms[|ms| - 1].hdr, 0)
    ensures AssignedAt(ms, args, asg, |ms| - 1)
  {
    hide SameName, Match;
    var n := |ms| - 1;
    MatchExactly(args, Taken(before, n), ms[n].hdr, 0);
    assert NameOf(ms[n]) == ms[n].hdr[..AR_NAME];
    assert forall j :: 0 <= j < n ==> asg[j] == before[j];
  }

  /** Main result on members, over the bytes of the old archive: a, r and d write what is wanted, member by member. */
  lemma RewrittenAsWanted(file: Bytes, ms: seq<Item>, cmd: Command, args: seq<Given>, asg: seq<int>)
    requires Consists(file, ms) && cmd != Replace(true) && Assigned(ms, args, asg)
    ensures forall i :: 0 <= i < |asg| ==> asg[i] < |args|
    ensures Rewritten(file, 0, cmd, args, {}) == Some((AllWanted(ms, cmd, args, asg), Taken(asg, |ms|)))
  {
    hide Kept, Rewritten, AssignedAt, HoldsAll;
    KeptExactly(ms, cmd, args, asg, 0);
    RewrittenExactly(file, ms, 0, cmd, args, {});
    assert ms[..0] == [] && ms[0..] == ms && asg[0..] == asg && Taken(asg, 0) == {};
  }

  // ---------------------------------------------------------------- the u flag

  const UPDATE := Replace(true)

  /** The first of these members is kept because it is newer than its file, is not empty, and is not the last. */
  predicate Skips(ms: seq<Item>, args: seq<Given>, used: set<nat>)
    requires AllItems(ms) && ms != []
  {
    FateOf(UPDATE, args, Match(args, used, ms[0].hdr, 0)) == KeptOld && ms[0].data != [] && |ms| > 1
  }

  /** No member does that. */
  predicate Harmless(ms: seq<Item>, args: seq<Given>, used: set<nat>)
    requires AllItems(ms)
  {
    ms == [] || (!Skips(ms, args, used) && Harmless(ms[1..], args, Using(args, used, ms[0].hdr)))
  }

  predicate NoneReplaced(ms: seq<Item>, args: seq<Given>, used: set<nat>)
    requires AllItems(ms)
  {
    ms == [] || (!FateOf(UPDATE, args, Match(args, used, ms[0].hdr, 0)).Replaced?
                 && NoneReplaced(ms[1..], args, Using(args, used, ms[0].hdr)))
  }

  /** Behind the first member that does no member is replaced. */
  predicate Settled(ms: seq<Item>, args: seq<Given>, used: set<nat>)
    requires AllItems(ms)
  {
    ms == [] || if Skips(ms, args, used) then NoneReplaced(ms[1..], args, Using(args, used, ms[0].hdr))
                else Settled(ms[1..], args, Using(args, used, ms[0].hdr))
  }

  /** Main result for the u flag: if no member that is kept because it is newer is followed by others, except empty
      ones, the archive is rewritten as it should be; and otherwise, unless a later member is replaced, it is not. */
  lemma UpdateExactly(file: Bytes, ms: seq<Item>, i: nat, args: seq<Given>, used: set<nat>)
    requires Consists(file, ms) && i <= |ms|
    ensures AllItems(ms[i..])
    ensures Harmless(ms[i..], args, used) ==> Rewritten(file, End(ms[..i]), UPDATE, args, used) == Some(Kept(ms[i..], UPDATE, args, used))
    ensures !Harmless(ms[i..], args, used) && Settled(ms[i..], args, used) ==>
              Rewritten(file, End(ms[..i]), UPDATE, args, used) != Some(Kept(ms[i..], UPDATE, args, used))
  {
    assert AllItems(ms[i..]);
    if Harmless(ms[i..], args, used) {
      HarmlessKeeps(file, ms, i, args, used);
    } else if Settled(ms[i..], args, used) {
      SkippingLoses(file, ms, i, args, used);
    }
  }

  lemma {:induction false} HarmlessKeeps(file: Bytes, ms: seq<Item>, i: nat, args: seq<Given>, used: set<nat>)
    requires Consists(file, ms) && i <= |ms| && AllItems(ms[i..]) && Harmless(ms[i..], args, used)
    ensures Rewritten(file, End(ms[..i]), UPDATE, args, used) == Some(Kept(ms[i..], UPDATE, args, used))
    decreases |ms| - i
  {
    hide Size, Match, HoldsAll, Here, End, Rewritten;
    if i == |ms| {
      assert ms[..i] == ms;
      NothingLeft(file, End(ms), UPDATE, args, used);
    } else {
      assert ms[i..][1..] == ms[i + 1..];
      var used', n := Using(args, used, ms[i].hdr), |ms[i].data|;
      RewrittenStep(file, ms, i, UPDATE, args, used);
      HarmlessKeeps(file, ms, i + 1, args, used');
      if i + 1 == |ms| {
        assert ms[..i + 1] == ms;
        NothingLeft(file, End(ms), UPDATE, args, used');
        NothingLeft(file, End(ms) + Even(n), UPDATE, args, used');
      }
    }
  }

  /** What reading the members takes. */
  function Total(xs: seq<Item>): nat {
    if xs == [] then 0 else AR_TOTAL + Even(|xs[0].data|) + Total(xs[1..])
  }

  lemma {:induction false} TotalIsEnd(ms: seq<Item>, i: nat)
    requires i <= |ms|
    ensures End(ms[..i]) + Total(ms[i..]) == End(ms)
    decreases |ms| - i
  {
    if i == |ms| {
      assert ms[..i] == ms;
    } else {
      assert ms[i..][1..] == ms[i + 1..];
      EndStep(ms, i);
      TotalIsEnd(ms, i + 1);
    }
  }

  /** If nothing is replaced, everything is to be kept, and only arguments older than their members are used. */
  lemma {:induction false} KeptWhole(ms: seq<Item>, args: seq<Given>, used: set<nat>)
    requires AllItems(ms) && NoneReplaced(ms, args, used)
    ensures var r := Kept(ms, UPDATE, args, used);
            r.0 == ms && forall k :: k in r.1 && k !in used ==> k < |args| && args[k].old_
  {
    if ms != [] {
      KeptWhole(ms[1..], args, Using(args, used, ms[0].hdr));
    }
  }

  /** One turn uses at most one argument, and without a replacement writes only what it has read. */
  lemma TurnReads(file: Bytes, pos: nat, args: seq<Given>, used: set<nat>)
    requires pos < |file| && TurnAt(file, pos, UPDATE, args, used).Go?
    ensures var t := TurnAt(file, pos, UPDATE, args, used);
            && used <= t.used
            && ((forall k :: k in t.used && k !in used ==> k < |args| && args[k].old_) ==>
                  t.here == [] || (|t.here| == 1 && pos + Total(t.here) <= t.next && pos + Total(t.here) <= |file| + 1))
  {
    hide Size, Match;
    if pos + AR_TOTAL <= |file| { MatchUnused(args, used, file[pos..pos + AR_TOTAL], 0); }
  }

  /** Only such arguments used, every member written has been read, one behind the other. */
  lemma {:induction false} ReadInFull(file: Bytes, pos: nat, args: seq<Given>, used: set<nat>)
    requires Rewritten(file, pos, UPDATE, args, used).Some?
    requires forall k :: k in Rewritten(file, pos, UPDATE, args, used).value.1 && k !in used ==> k < |args| && args[k].old_
    ensures var r := Rewritten(file, pos, UPDATE, args, used).value;
            r.0 != [] ==> pos + Total(r.0) <= |file| + 1
    decreases |file| - pos
  {
    hide TurnAt;
    if pos < |file| {
      var t := TurnAt(file, pos, UPDATE, args, used);
      TurnReads(file, pos, args, used);
      UsedGrows(file, t.next, args, t.used);
      ReadInFull(file, t.next, args, t.used);
      var more := Rewritten(file, t.next, UPDATE, args, t.used).value.0;
      assert t.here != [] ==> (t.here + more)[1..] == more;
      assert t.here == [] ==> t.here + more == more;
    }
  }

  lemma {:induction false} MatchUnused(args: seq<Given>, used: set<nat>, hdr: Bytes, i: nat)
    requires |hdr| == AR_TOTAL && i <= |args|
    ensures var k := Match(args, used, hdr, i); k < |args| ==> k !in used && Equal(args[k].name, hdr[..AR_NAME])
    decreases |args| - i
  {
    if i < |args| { MatchUnused(args, used, hdr, i + 1); }
  }

  lemma {:induction false} UsedGrows(file: Bytes, pos: nat, args: seq<Given>, used: set<nat>)
    requires Rewritten(file, pos, UPDATE, args, used).Some?
    ensures used <= Rewritten(file, pos, UPDATE, args, used).value.1
    decreases |file| - pos
  {
    hide TurnAt;
    if pos < |file| {
      var t := TurnAt(file, pos, UPDATE, args, used);
      TurnReads(file, pos, args, used);
      UsedGrows(file, t.next, args, t.used);
    }
  }

  /** Behind the skipped bytes there are not enough left for all members that should follow. */
  lemma {:induction false} SkippingLoses(file: Bytes, ms: seq<Item>, i: nat, args: seq<Given>, used: set<nat>)
    requires Consists(file, ms) && i <= |ms| && AllItems(ms[i..]) && !Harmless(ms[i..], args, used) && Settled(ms[i..], args, used)
    ensures Rewritten(file, End(ms[..i]), UPDATE, args, used) != Some(Kept(ms[i..], UPDATE, args, used))
    decreases |ms| - i
  {
    hide Size, Match, HoldsAll, End, Rewritten;
    var used', n := Using(args, used, ms[i].hdr), |ms[i].data|;
    var rest := ms[i + 1..];
    assert ms[i..][1..] == rest;
    RewrittenStep(file, ms, i, UPDATE, args, used);
    var fate := FateOf(UPDATE, args, Match(args, used, ms[i].hdr, 0));
    var next := End(ms[..i + 1]) + if fate == KeptOld then Even(n) else 0;
    var more, should := Rewritten(file, next, UPDATE, args, used'), Kept(rest, UPDATE, args, used');
    if Skips(ms[i..], args, used) {
      KeptWhole(rest, args, used');
      if more == Some(should) {
        ReadInFull(file, next, args, used');
        TotalIsEnd(ms, i + 1);
        assert false;
      }
    } else {
      SkippingLoses(file, ms, i + 1, args, used');
      assert i + 1 < |ms| || rest == [];
    }
    Cancel(Here(ms[i], fate, args), more, should);
  }

  lemma Cancel(here: seq<Item>, more: Option<(seq<Item>, set<nat>)>, should: (seq<Item>, set<nat>))
    requires more != Some(should)
    ensures Then(here, more) != Some((here + should.0, should.1))
  {
    if more.Some? {
      assert (here + more.value.0)[|here|..] == more.value.0;
      assert (here + should.0)[|here|..] == should.0;
    }
  }

  /** A member that is kept because it is newer is copied and then skipped once more: reading goes on at the next
      member exactly if the kept one is empty. */
  lemma KeptOldSkips(file: Bytes, ms: seq<Item>, i: nat, args: seq<Given>, used: set<nat>)
    requires Consists(file, ms) && i < |ms| && FateOf(UPDATE, args, Match(args, used, ms[i].hdr, 0)) == KeptOld
    ensures var n := |ms[i].data|;
            var next := End(ms[..i + 1]) + Even(n);
            && Rewritten(file, End(ms[..i]), UPDATE, args, used)
               == Then([ms[i]], Rewritten(file, next, UPDATE, args, Using(args, used, ms[i].hdr)))
            && (next == End(ms[..i + 1]) <==> n == 0)
  {
    hide Size, Match, Consists, Rewritten;
    RewrittenStep(file, ms, i, UPDATE, args, used);
  }

  /** Where the bytes skipped are just those of members i + 1 to j - 1, these are lost. */
  lemma KeptOldLoses(file: Bytes, ms: seq<Item>, i: nat, j: nat, args: seq<Given>, used: set<nat>)
    requires Consists(file, ms) && i < j <= |ms| && FateOf(UPDATE, args, Match(args, used, ms[i].hdr, 0)) == KeptOld
    requires End(ms[..j]) == End(ms[..i + 1]) + Even(|ms[i].data|)
    ensures Rewritten(file, End(ms[..i]), UPDATE, args, used)
            == Then([ms[i]], Rewritten(file, End(ms[..j]), UPDATE, args, Using(args, used, ms[i].hdr)))
  {
    hide Match, Consists, Rewritten;
    KeptOldSkips(file, ms, i, args, used);
  }

  /** A header with that name and size, and nothing else. */
  function Plain(c: Byte, n: Byte): (hdr: Bytes)
    ensures |hdr| == AR_TOTAL && Size(hdr) == n
    ensures forall i :: 0 <= i < AR_NAME + 2 ==> hdr[i] == c
    ensures hdr[AR_NAME + 2..] == [0, 0, 0, 0, 0, 0, 0, 0, n, 0]
  {
    [c, c, c, c, c, c, c, c, c, c, c, c, c, c, c, c, 0, 0, 0, 0, 0, 0, 0, 0, n, 0]
  }

  lemma Pair(x: Item, y: Item)
    requires IsItem(x) && IsItem(y) && !Equal(x.hdr[..AR_NAME], SYMDEF) && !Equal(y.hdr[..AR_NAME], SYMDEF)
    requires |x.data| % 2 == 0 && |y.data| % 2 == 0
    ensures var file := x.hdr + x.data + y.hdr + y.data;
            Consists(file, [x, y]) && End([x, y][..0]) == 0 && End([x, y][..1]) == AR_TOTAL + |x.data| && End([x, y]) == |file|
  {
    var ms, file := [x, y], x.hdr + x.data + y.hdr + y.data;
    assert ms[..0] == [] && ms[..1] == [x];
    EndAppend([], x);
    EndAppend([x], y);
    assert [] + [x] == [x] && [x] + [y] == ms;
    assert Holds(file, ms, 0) && Holds(file, ms, 1);
  }

  /** Kept because it is newer, a member of 26 bytes takes an empty member behind it away. */
  lemma {:induction false} SecondIsLost(x: Item, y: Item, args: seq<Given>)
    requires IsItem(x) && IsItem(y) && !Equal(x.hdr[..AR_NAME], SYMDEF) && !Equal(y.hdr[..AR_NAME], SYMDEF)
    requires |x.data| == AR_TOTAL && y.data == [] && !Equal(x.hdr[..AR_NAME], y.hdr[..AR_NAME])
    requires |args| == 1 && args[0].name == x.hdr[..AR_NAME] && args[0].old_
    ensures var file := x.hdr + x.data + y.hdr + y.data;
            && Consists(file, [x, y])
            && Rewritten(file, 0, UPDATE, args, {}) == Some(([x], {0})) && Kept([x, y], UPDATE, args, {}) == ([x, y], {0})
  {
    hide Consists, Rewritten, Size, End;
    var ms, file := [x, y], x.hdr + x.data + y.hdr + y.data;
    assert AllItems(ms);
    Pair(x, y);
    EqualSelf(x.hdr[..AR_NAME], 0);
    assert Match(args, {}, x.hdr, 0) == 0;
    assert Match(args, {0}, y.hdr, 0) == 1;
    RewrittenStep(file, ms, 0, UPDATE, args, {});
    NothingLeft(file, |file|, UPDATE, args, {0});
    assert {} + {0} == {0} && [x] + [] == [x];
    assert ms[1..] == [y] && [y][1..] == [];
    assert Kept([], UPDATE, args, {0}) == ([], {0}) && [y] + [] == [y];
    assert Kept([y], UPDATE, args, {0}) == ([y], {0});
    assert [x] + [y] == ms;
  }

  lemma MemberIsLost()
    ensures exists file, ms, args :: Consists(file, ms) && |ms| == 2 && Rewritten(file, 0, UPDATE, args, {}) == Some((ms[..1], {0}))
                                     && Kept(ms, UPDATE, args, {}) == (ms, {0})
  {
    hide Consists, Rewritten, Kept, Size, Plain;
    var x, y := Item(Plain(65, 26), Zeros(26)), Item(Plain(66, 0), []);
    assert x.hdr[..AR_NAME][0] == 65 && y.hdr[..AR_NAME][0] == 66;
    SecondIsLost(x, y, [Given(x.hdr[..AR_NAME], None, true, 0)]);
    assert [x, y][..1] == [x];
  }

  /** Where a member is replaced later on, the wrong reading can come to the right result: the two bytes skipped
      make what is left look like a header of the same name. */
  lemma MisreadingMakesUp()
    ensures exists file, ms, args :: Consists(file, ms) && !Harmless(ms, args, {})
                                     && Rewritten(file, 0, UPDATE, args, {}) == Some(Kept(ms, UPDATE, args, {}))
  {
    hide Consists, Rewritten, Kept, Size, Plain, Harmless;
    var x, y, z := Item(Plain(65, 2), [0, 0]), Item(Plain(97, 2), [0, 0]), Item(Plain(97, 0), []);
    assert x.hdr[..AR_NAME][0] == 65 && y.hdr[..AR_NAME][0] == 97;
    SecondMisread(x, y, z, [Given(x.hdr[..AR_NAME], None, true, 0), Given(y.hdr[..AR_NAME], Some(z), false, 0)]);
  }

  lemma {:induction false} SecondMisread(x: Item, y: Item, z: Item, args: seq<Given>)
    requires IsItem(x) && IsItem(y) && x.data == [0, 0] && y == Item(Plain(97, 2), [0, 0])
    requires !Equal(x.hdr[..AR_NAME], SYMDEF) && !Equal(y.hdr[..AR_NAME], SYMDEF) && !Equal(x.hdr[..AR_NAME], y.hdr[..AR_NAME])
    requires |args| == 2 && args[0].name == x.hdr[..AR_NAME] && args[0].old_
    requires args[1] == Given(y.hdr[..AR_NAME], Some(z), false, 0)
    ensures var file := x.hdr + x.data + y.hdr + y.data;
            && Consists(file, [x, y]) && !Harmless([x, y], args, {})
            && Rewritten(file, 0, UPDATE, args, {}) == Some(Kept([x, y], UPDATE, args, {}))
  {
    hide Consists, Rewritten, Size, End, Plain;
    var ms, file := [x, y], x.hdr + x.data + y.hdr + y.data;
    assert AllItems(ms);
    Pair(x, y);
    EqualSelf(x.hdr[..AR_NAME], 0);
    assert Match(args, {}, x.hdr, 0) == 0;
    EqualSelf(y.hdr[..AR_NAME], 0);
    assert Match(args, {0}, y.hdr, 0) == 1;
    RewrittenStep(file, ms, 0, UPDATE, args, {});
    assert {} + {0} == {0} && {0} + {1} == {0, 1} && [z] + [] == [z];
    assert |x.hdr + x.data| == 28 && file == (x.hdr + x.data) + (y.hdr + y.data);
    assert file[28..] == y.hdr + [0, 0];
    Misread(file, args, y.hdr);
    assert ms[1..] == [y] && [y][1..] == [];
    assert Kept([], UPDATE, args, {0, 1}) == ([], {0, 1});
    assert Kept([y], UPDATE, args, {0}) == ([z], {0, 1});
  }

  lemma Misread(file: Bytes, args: seq<Given>, hdr: Bytes)
    requires hdr == Plain(97, 2) && |file| == 56 && file[28..] == hdr + [0, 0]
    requires |args| == 2 && args[1] == Given(hdr[..AR_NAME], args[1].file, false, 0) && args[1].file.Some?
    ensures Rewritten(file, 30, UPDATE, args, {0}) == Some(([args[1].file.value], {0, 1}))
  {
    hide Plain, Size, Equal, Here, Even;
    var seen := file[30..56];
    assert seen == file[28..][2..] == hdr[2..] + [0, 0];
    SeenAs(seen, hdr);
    EqualSelf(seen[..AR_NAME], 0);
    assert Equal(args[1].name, seen[..AR_NAME]) by { EqualIs(args[1].name, seen[..AR_NAME]); }
    assert Match(args, {0}, seen, 0) == 1;
    var t := TurnAt(file, 30, UPDATE, args, {0});
    assert t.Go? && t.next >= 56 && t.used == {0, 1} && t.here == [args[1].file.value] by { OneReplaced(args, seen); }
    NothingLeft(file, t.next, UPDATE, args, {0, 1});
    NextTurn(file, 30, UPDATE, args, {0});
    assert t.here + [] == t.here;
  }

  lemma EqualIs(a: Bytes, b: Bytes)
    ensures Equal(a, b) == EqualFrom(a, b, 0)
  {
  }

  lemma OneReplaced(args: seq<Given>, hdr: Bytes)
    requires |args| == 2 && !args[1].old_ && args[1].file.Some? && |hdr| == AR_TOTAL && Match(args, {0}, hdr, 0) == 1
    ensures Using(args, {0}, hdr) == {0, 1} && FateOf(UPDATE, args, 1) == Replaced(1)
    ensures forall x :: Here(x, Replaced(1), args) == [args[1].file.value]
  {
  }

  /** Two bytes on, a header of 97s looks like one of the same name and of 128 KB. */
  lemma SeenAs(seen: Bytes, hdr: Bytes)
    requires hdr == Plain(97, 2) && seen == hdr[2..] + [0, 0]
    ensures |seen| == AR_TOTAL && seen[..AR_NAME] == hdr[..AR_NAME] && Size(seen) == 0x2_0000 && !Equal(seen[..AR_NAME], SYMDEF)
  {
    assert seen[0] == 97 && seen[..AR_NAME][0] == 97;
  }

  /** The arguments that named no member are added at the end, in order. */
  function Appended(args: seq<Given>, used: set<nat>, i: nat): seq<Item>
    requires i <= |args|
    decreases |args| - i
  {
    if i == |args| then []
    else (if i !in used && args[i].file.Some? then [args[i].file.value] else []) + Appended(args, used, i + 1)
  }

  /** How many of the first k arguments are added. */
  function Added(args: seq<Given>, used: set<nat>, k: nat): nat
    requires k <= |args|
  {
    if k == 0 then 0 else Added(args, used, k - 1) + if k - 1 !in used && args[k - 1].file.Some? then 1 else 0
  }

  lemma {:induction false} AppendedLength(args: seq<Given>, used: set<nat>, i: nat)
    requires i <= |args|
    ensures Added(args, used, i) + |Appended(args, used, i)| == Added(args, used, |args|)
    decreases |args| - i
  {
    if i < |args| { AppendedLength(args, used, i + 1); }
  }

  /** Exactly the files of the unused arguments that can be read, in order. */
  lemma {:induction false} AppendedExactly(args: seq<Given>, used: set<nat>, i: nat, k: nat)
    requires i <= k < |args| && k !in used && args[k].file.Some?
    ensures var at := Added(args, used, k) - Added(args, used, i);
            0 <= at < |Appended(args, used, i)| && Appended(args, used, i)[at] == args[k].file.value
    decreases k - i
  {
    if i < k { AppendedExactly(args, used, i + 1, k); }
  }

  method AppendRest(args: seq<Given>, used: set<nat>, w: Writer)
    requires w.Valid() && forall i :: 0 <= i < |args| ==> GivenOk(args[i])
    modifies w
    ensures w.Valid() && w.items == old(w.items) + Appended(args, used, 0)
  {
    hide Writer.Valid;
    ghost var before := w.items;
    ghost var done: seq<Item> := [];
    assert before + done == before && done + Appended(args, used, 0) == Appended(args, used, 0);
    var i := 0;
    while i < |args|
      invariant 0 <= i <= |args| && w.Valid() && w.items == before + done
      invariant done + Appended(args, used, i) == Appended(args, used, 0)
    {
      var here: seq<Item> := [];
      if i !in used && args[i].file.Some? {
        here := [args[i].file.value];
        w.Add(args[i].file.value, args[i].stale);
      }
      assert done + (here + Appended(args, used, i + 1)) == done + here + Appended(args, used, i + 1);
      assert before + (done + here) == before + done + here;
      done := done + here;
      i := i + 1;
    }
    assert done + [] == done;
  }

  /** get() for a, r and d: the archive behind its magic number; stamp is the date, owner and mode of the symbol
      table. */
  method Rewrite(old_: Bytes, cmd: Command, args: seq<Given>, exported: Bytes -> seq<Bytes>, magic: Bytes, stamp: Bytes)
    returns (file: Option<Bytes>, index: Index, ghost items: seq<Item>, ghost members: Bytes)
    requires |magic| == MAGIC_SIZE && |stamp| == 8 && forall i :: 0 <= i < |args| ==> GivenOk(args[i])
    ensures file.None? <==> Rewritten(old_, 0, cmd, args, {}).None?
    ensures file.Some? ==> var r := Rewritten(old_, 0, cmd, args, {}).value;
              items == r.0 + if cmd == Delete then [] else Appended(args, r.1, 0)
    ensures file.Some? ==> IndexRight(file.value, items, exported, index)
    ensures file.Some? ==> IsArchive(file.value, magic, stamp, index, members, items)
    ensures file.Some? && |file.value| < LONG_MAX ==> ReadIndex(file.value[MAGIC_SIZE + AR_TOTAL..]) == Some(index)
  {
    hide Rewritten, Appended, Size, IndexRight, Shifted, PaddedIndex, Body, Whole, SymHeader, ReadIndex, Fits, HoldsAll, IsItem, End,
         IndexOf;
    var w := new Writer(exported);
    index, items, members := Index([], []), [], [];
    var ok, used := RewriteMembers(old_, cmd, args, w);
    if !ok { return None, index, items, members; }
    assert [] + Rewritten(old_, 0, cmd, args, {}).value.0 == Rewritten(old_, 0, cmd, args, {}).value.0;
    if cmd != Delete { AppendRest(args, used, w); }
    items, members := w.items, w.data;
    assert cmd == Delete ==> items == items + [];
    var padded := PaddedIndex(Index(w.tab, w.str));
    index := Shifted(padded, MAGIC_SIZE + AR_TOTAL + BodySize(padded));
    var symHdr, body := SymHeader(stamp, BodySize(index)), Body(index);
    IndexFindsMembers(magic, symHdr, body, w.data, items, exported);
    file := Some(Whole(magic, symHdr, body, w.data));
    if |file.value| < LONG_MAX { IndexReadsBack(file.value, magic, symHdr, index, w.data, items, exported); }
  }

  /** What has been written: the symbol table, and behind it the members. */
  ghost predicate IsArchive(file: Bytes, magic: Bytes, stamp: Bytes, index: Index, members: Bytes, items: seq<Item>) {
    && |magic| == MAGIC_SIZE && |stamp| == 8 && file == Whole(magic, SymHeader(stamp, BodySize(index)), Body(index), members)
    && |index.str| % 2 == 0 && AllItems(items) && HoldsAll(members, items) && |members| <= End(items)
  }

  // ---------------------------------------------------------------- bytes

  const M32 := 0x1_0000_0000
  const LONG_MAX := 0x8000_0000

  /** put4(): the low byte first */
  function Long(n: nat): (b: Bytes)
    ensures |b| == 4
  {
    [n % 0x100, n / 0x100 % 0x100, n / 0x1_0000 % 0x100, n / 0x100_0000 % 0x100]
  }

  /** get4() */
  function Get4(b: Bytes, at: nat): nat
    requires at + 4 <= |b|
  {
    b[at] as int + 0x100 * (b[at + 1] as int) + 0x1_0000 * (b[at + 2] as int) + 0x100_0000 * (b[at + 3] as int)
  }

  lemma LongReads(b: Bytes, at: nat, n: nat)
    requires at + 4 <= |b| && b[at..at + 4] == Long(n) && n < M32
    ensures Get4(b, at) == n
  {
    var l := b[at..at + 4];
    assert b[at] == l[0] && b[at + 1] == l[1] && b[at + 2] == l[2] && b[at + 3] == l[3];
    Digits(n);
  }

  lemma Digits(n: nat)
    requires n < M32
    ensures n == n % 0x100 + 0x100 * (n / 0x100 % 0x100) + 0x1_0000 * (n / 0x1_0000 % 0x100) + 0x100_0000 * (n / 0x100_0000 % 0x100)
  {
    assert n / 0x1_0000 == n / 0x100 / 0x100 && n / 0x100_0000 == n / 0x1_0000 / 0x100;
  }

  /** The low byte comes first. */
  lemma LongExactly(n: nat)
    requires n < M32
    ensures var b := Long(n);
            b[0] as int + 0x100 * (b[1] as int) + 0x1_0000 * (b[2] as int) + 0x100_0000 * (b[3] as int) == n
  {
    Digits(n);
  }

  lemma SizeOf(hdr: Bytes, n: nat)
    requires |hdr| == AR_TOTAL && n < LONG_MAX && hdr[22..24] == Long(n)[2..] && hdr[24..26] == Long(n)[..2]
    ensures Size(hdr) == n
  {
    var hi, lo := hdr[22..24], hdr[24..26];
    assert hdr[22] == hi[0] && hdr[23] == hi[1] && hdr[24] == lo[0] && hdr[25] == lo[1];
    Digits(n);
  }

  /** The header of the symbol table; of the two words of its size the high one comes first. */
  function SymHeader(stamp: Bytes, n: nat): (hdr: Bytes)
    requires |stamp| == 8
    ensures |hdr| == AR_TOTAL && hdr[..AR_NAME] == SYMDEF && (n < LONG_MAX ==> Size(hdr) == n)
  {
    var hdr := SYMDEF + stamp + Long(n)[2..] + Long(n)[..2];
    if n < LONG_MAX then
      SizeOf(hdr, n);
      hdr
    else hdr
  }

  /** wr_ranlib() */
  function Entries(tab: seq<Ran>): (b: Bytes)
    ensures |b| == 8 * |tab|
  {
    if tab == [] then [] else Long(tab[0].off) + Long(tab[0].pos) + Entries(tab[1..])
  }

  function Body(ix: Index): (b: Bytes)
    ensures |b| == BodySize(ix)
  {
    Long(|ix.tab|) + Entries(ix.tab) + Long(|ix.str|) + ix.str
  }

  lemma {:induction false} EntryAt(tab: seq<Ran>, k: nat)
    requires k < |tab|
    ensures Entries(tab)[8 * k..8 * k + 4] == Long(tab[k].off) && Entries(tab)[8 * k + 4..8 * k + 8] == Long(tab[k].pos)
  {
    var rest := Entries(tab[1..]);
    assert Entries(tab) == Long(tab[0].off) + Long(tab[0].pos) + rest;
    if k > 0 {
      EntryAt(tab[1..], k - 1);
      assert Entries(tab)[8 * k..8 * k + 4] == rest[8 * (k - 1)..8 * (k - 1) + 4];
      assert Entries(tab)[8 * k + 4..8 * k + 8] == rest[8 * (k - 1) + 4..8 * (k - 1) + 8];
    }
  }

  /** Reading the symbol table: the number of entries, the entries, the size of the string table, the string table. */
  function ReadIndex(b: Bytes): Option<Index> {
    if |b| < 4 then None
    else
      var n := Get4(b, 0);
      if |b| < 8 + 8 * n then None
      else
        var m := Get4(b, 4 + 8 * n);
        if |b| < 8 + 8 * n + m then None
        else Some(Index(seq(n, k requires 0 <= k < n => Ran(Get4(b, 4 + 8 * k), Get4(b, 8 + 8 * k))), b[8 + 8 * n..8 + 8 * n + m]))
  }

  /** Everything in the index can be written as a long. */
  predicate Fits(ix: Index) {
    |ix.tab| < M32 && |ix.str| < M32 && forall k :: 0 <= k < |ix.tab| ==> ix.tab[k].off < M32 && ix.tab[k].pos < M32
  }

  lemma BodyReads(ix: Index, rest: Bytes)
    requires Fits(ix)
    ensures ReadIndex(Body(ix) + rest) == Some(ix)
  {
    hide Long, Get4, Entries;
    var n, m, b := |ix.tab|, |ix.str|, Body(ix) + rest;
    assert b[0..4] == Long(n) && b[4..4 + 8 * n] == Entries(ix.tab) && b[4 + 8 * n..8 + 8 * n] == Long(m);
    assert b[8 + 8 * n..8 + 8 * n + m] == ix.str;
    LongReads(b, 0, n);
    LongReads(b, 4 + 8 * n, m);
    forall k | 0 <= k < n
      ensures Ran(Get4(b, 4 + 8 * k), Get4(b, 8 + 8 * k)) == ix.tab[k]
    {
      EntryAt(ix.tab, k);
      assert b[4 + 8 * k..8 + 8 * k] == Entries(ix.tab)[8 * k..8 * k + 4];
      assert b[8 + 8 * k..12 + 8 * k] == Entries(ix.tab)[8 * k + 4..8 * k + 8];
      LongReads(b, 4 + 8 * k, ix.tab[k].off);
      LongReads(b, 8 + 8 * k, ix.tab[k].pos);
    }
    assert ReadIndex(b).value.tab == ix.tab;
  }

  /** In a file that a long can measure the index can be read back: all it says lies within the file. */
  lemma IndexReadsBack(file: Bytes, magic: Bytes, symHdr: Bytes, index: Index, members: Bytes, xs: seq<Item>,
                       exported: Bytes -> seq<Bytes>)
    requires |magic| == MAGIC_SIZE && |symHdr| == AR_TOTAL && file == Whole(magic, symHdr, Body(index), members)
    requires |file| < LONG_MAX && IndexRight(file, xs, exported, index)
    ensures ReadIndex(file[MAGIC_SIZE + AR_TOTAL..]) == Some(index)
  {
    hide Body, ReadIndex;
    forall k | 0 <= k < |index.tab|
      ensures index.tab[k].off < M32 && index.tab[k].pos < M32
    {
      assert Leads(file, xs, exported, index.str, index.tab[k]);
    }
    BodyReads(index, members);
    assert file[MAGIC_SIZE + AR_TOTAL..] == Body(index) + members;
  }

  // ---------------------------------------------------------------- reading the new archive

  /** What is in front of where reading starts does not matter. */
  lemma {:induction false} ReadBehind(front: Bytes, file: Bytes, pos: nat, cmd: Command, args: seq<Given>, used: set<nat>)
    ensures Rewritten(front + file, |front| + pos, cmd, args, used) == Rewritten(file, pos, cmd, args, used)
    decreases |file| - pos
  {
    hide TurnAt;
    if pos < |file| {
      SameTurn(front, file, pos, cmd, args, used);
      var t := TurnAt(file, pos, cmd, args, used);
      if t.Go? { ReadBehind(front, file, t.next, cmd, args, t.used); }
    }
  }

  lemma SameTurn(front: Bytes, file: Bytes, pos: nat, cmd: Command, args: seq<Given>, used: set<nat>)
    requires pos < |file|
    ensures TurnAt(front + file, |front| + pos, cmd, args, used)
            == match TurnAt(file, pos, cmd, args, used)
               case Stop => Stop
               case Go(here, next, after) => Go(here, |front| + next, after)
  {
    hide Size, Match, Here, FateOf, Even;
    var all, at := front + file, |front| + pos;
    if pos + AR_TOTAL <= |file| {
      assert all[at..at + AR_TOTAL] == file[pos..pos + AR_TOTAL];
      var n := Size(file[pos..pos + AR_TOTAL]);
      if 0 <= n && pos + AR_TOTAL + n <= |file| {
        assert all[at + AR_TOTAL..at + AR_TOTAL + n] == file[pos + AR_TOTAL..pos + AR_TOTAL + n];
      }
    }
  }

  /** Main result: an archive that has been written is one that can be read again: the symbol table is skipped, and the
      members found are those written. */
  lemma ReadAgain(file: Bytes, magic: Bytes, stamp: Bytes, index: Index, members: Bytes, items: seq<Item>,
                  cmd: Command, args: seq<Given>)
    requires IsArchive(file, magic, stamp, index, members, items) && |file| < LONG_MAX
    requires forall i :: 0 <= i < |items| ==> !Equal(items[i].hdr[..AR_NAME], SYMDEF)
    ensures Consists(members, items) && Rewritten(file[MAGIC_SIZE..], 0, cmd, args, {}) == Rewritten(members, 0, cmd, args, {})
    ensures cmd != UPDATE ==> Rewritten(file[MAGIC_SIZE..], 0, cmd, args, {}) == Some(Kept(items, cmd, args, {}))
  {
    hide SymHeader, Body, HoldsAll, Size, Rewritten, IsItem;
    var symHdr, body := SymHeader(stamp, BodySize(index)), Body(index);
    assert file[MAGIC_SIZE..] == symHdr + body + members;
    SymbolsSkipped(symHdr, body, members, cmd, args);
    ReadBehind(symHdr + body, members, 0, cmd, args, {});
    if cmd != UPDATE {
      assert items[..0] == [] && items[0..] == items;
      RewrittenExactly(members, items, 0, cmd, args, {});
    }
  }

  lemma SymbolsSkipped(symHdr: Bytes, body: Bytes, members: Bytes, cmd: Command, args: seq<Given>)
    requires |symHdr| == AR_TOTAL && symHdr[..AR_NAME] == SYMDEF && Size(symHdr) == |body|
    ensures var file := symHdr + body + members;
            Rewritten(file, 0, cmd, args, {}) == Rewritten(file, |symHdr + body|, cmd, args, {})
  {
    hide Size, Match;
    var file := symHdr + body + members;
    assert file[0..AR_TOTAL] == symHdr;
    EqualSelf(SYMDEF, 0);
    ThenMore([], [], Rewritten(file, |symHdr + body|, cmd, args, {}));
  }
}
