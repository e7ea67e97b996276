/** Reading files of a raw Minix file system: the cached block map of boot/rawfs.c and the track buffer of
    boot/bootimage.c, over a disk that does not change. */
module RawFs {
  import opened ImageFormat

  const SECBUFS := 16
  const PAST_END := -1

  /** The disk.  indirect gives the zone numbers in an indirect block, inode what r_stat finds, sector the bytes
      of a sector; boundary and readable are dev_boundary and the outcome of readsectors. */
  datatype Disk = Disk(
    blockSize: nat, zoneShift: nat, nrDzones: nat, nrIndirects: nat, lowsec: nat,
    indirect: nat -> seq<nat>, inode: nat -> Inode,
    sector: nat -> Bytes, boundary: nat -> bool, readable: (nat, nat) -> bool)

  datatype Inode = Inode(size: nat, zone: seq<nat>)

  ghost predicate DiskOk(d: Disk) {
    && d.nrIndirects > 0 && d.blockSize % SECTOR_SIZE == 0
    && (forall z :: |d.indirect(z)| == d.nrIndirects)
    && (forall i :: |d.inode(i).zone| >= d.nrDzones + 2)
    && (forall s :: |d.sector(s)| == SECTOR_SIZE)
  }

  /** n << shift */
  function Shl(n: nat, shift: nat): nat
    decreases shift
  {
    if shift == 0 then n else Shl(2 * n, shift - 1)
  }

  /** n >> shift */
  function Shr(n: nat, shift: nat): nat {
    if shift == 0 then n else Shr(n, shift - 1) / 2
  }

  lemma {:induction false} ShlMono(a: nat, b: nat, shift: nat)
    requires a <= b
    ensures a <= Shl(a, shift) <= Shl(b, shift)
    decreases shift
  {
    if shift > 0 { ShlMono(2 * a, 2 * b, shift - 1); }
  }

  lemma {:induction false} ShlZero(shift: nat)
    ensures Shl(0, shift) == 0
  {
    if shift > 0 { ShlZero(shift - 1); }
  }

  lemma {:induction false} ShlOfShr(n: nat, shift: nat)
    ensures Shl(Shr(n, shift), shift) <= n
  {
    if shift > 0 {
      ShlOfShr(n, shift - 1);
      ShlMono(2 * Shr(n, shift), Shr(n, shift - 1), shift - 1);
    }
  }

  /** The number of zones a file can have. */
  function Zones(d: Disk): nat {
    d.nrDzones + d.nrIndirects + d.nrIndirects * d.nrIndirects
  }

  function ZoneOf(d: Disk, b: nat): nat {
    Shr(b, d.zoneShift)
  }

  function FirstBlock(d: Disk, zone: nat): nat {
    Shl(zone, d.zoneShift)
  }

  function IndexInZone(d: Disk, b: nat): nat {
    ShlOfShr(b, d.zoneShift);
    b - FirstBlock(d, ZoneOf(d, b))
  }

  predicate PastEnd(d: Disk, f: Inode, b: nat) {
    d.blockSize == 0 || b * d.blockSize >= f.size
  }

  /** No file is larger than its zones can address. */
  predicate FileOk(d: Disk, f: Inode) {
    |f.zone| >= d.nrDzones + 2 && f.size <= Shl(Zones(d), d.zoneShift) * d.blockSize
  }

  // ---------------------------------------------------------------- the uncached walk

  /** Where the walk ends: the zone of the block, or where it broke off. */
  datatype Found = Zone(z: nat) | NoIndirect

  /** The zone that holds zone number n of the file, read straight from the disk; 0 for a hole. */
  function Walk(d: Disk, f: Inode, n: nat): Found
    requires DiskOk(d) && |f.zone| >= d.nrDzones + 2 && n < Zones(d)
  {
    if n < d.nrDzones then Zone(f.zone[n])
    else if n - d.nrDzones < d.nrIndirects then Through(d, f.zone[d.nrDzones], n - d.nrDzones)
    else
      var k := n - d.nrDzones - d.nrIndirects;
      DivBound(k, d.nrIndirects);
      if f.zone[d.nrDzones + 1] == 0 then NoIndirect
      else Through(d, d.indirect(FirstBlock(d, f.zone[d.nrDzones + 1]))[k / d.nrIndirects], k % d.nrIndirects)
  }

  function Through(d: Disk, ind: nat, m: nat): Found
    requires DiskOk(d) && m < d.nrIndirects
  {
    if ind == 0 then NoIndirect else Zone(d.indirect(FirstBlock(d, ind))[m])
  }

  lemma DivBound(k: nat, n: nat)
    requires n > 0 && k < n * n
    ensures k / n < n
  {
    assert k == k / n * n + k % n;
    if k / n >= n { Mono(n, k / n, n); }
  }

  lemma Mono(a: nat, b: nat, c: nat)
    requires a <= b
    ensures a * c <= b * c
  {
  }

  lemma InFile(d: Disk, f: Inode, b: nat)
    requires FileOk(d, f) && !PastEnd(d, f, b)
    ensures ZoneOf(d, b) < Zones(d)
  {
    hide Zones, Shl, Shr;
    var zones := Zones(d);
    if b >= Shl(zones, d.zoneShift) { Mono(Shl(zones, d.zoneShift), b, d.blockSize); }
    ShlOfShr(b, d.zoneShift);
    if ZoneOf(d, b) >= zones { ShlMono(zones, ZoneOf(d, b), d.zoneShift); }
  }

  /** What r_vir2abs answers, without its caches: -1 past the end of the file, 0 for a hole. */
  function Block(d: Disk, f: Inode, b: nat): (r: int)
    requires DiskOk(d) && FileOk(d, f)
    ensures r >= PAST_END && (r == PAST_END <==> PastEnd(d, f, b))
  {
    if PastEnd(d, f, b) then PAST_END
    else
      InFile(d, f, b);
      match Walk(d, f, ZoneOf(d, b))
      case NoIndirect => 0
      case Zone(z) => FirstBlock(d, z) + IndexInZone(d, b)
  }

  /** A block in a hole reads as block 0 exactly if an indirect block is missing or the block is the first of its
      zone; so always when zones are blocks (zone_shift 0).  Any other block of a hole looks like a data block
      near the start of the disk.  A block that is not in a hole is never taken for one. */
  lemma HolesExactly(d: Disk, f: Inode, b: nat)
    requires DiskOk(d) && FileOk(d, f) && !PastEnd(d, f, b)
    ensures ZoneOf(d, b) < Zones(d)
            && match Walk(d, f, ZoneOf(d, b))
               case NoIndirect => Block(d, f, b) == 0
               case Zone(z) => if z == 0 then (Block(d, f, b) == 0 <==> IndexInZone(d, b) == 0) else Block(d, f, b) > 0
    ensures d.zoneShift == 0 ==> IndexInZone(d, b) == 0
  {
    hide Walk, Zones;
    InFile(d, f, b);
    ShlZero(d.zoneShift);
    if Walk(d, f, ZoneOf(d, b)).Zone? && Walk(d, f, ZoneOf(d, b)).z > 0 { FirstBlockPositive(d, Walk(d, f, ZoneOf(d, b)).z); }
  }

  lemma FirstBlockPositive(d: Disk, zone: nat)
    requires zone > 0
    ensures FirstBlock(d, zone) > 0
  {
    ShlMono(zone, zone, d.zoneShift);
  }

  // ---------------------------------------------------------------- the layout of a file

  /** The blocks in a zone: two to the power of zone_shift. */
  function PowerOfTwo(shift: nat): (u: nat)
    ensures u > 0
  {
    if shift == 0 then 1 else 2 * PowerOfTwo(shift - 1)
  }

  /** Zone m of those in the indirect block of zone ind; there is none if there is no such indirect block. */
  function Entry(d: Disk, ind: nat, m: nat): Option<nat>
    requires DiskOk(d) && m < d.nrIndirects
  {
    if ind == 0 then None else Some(d.indirect(ind * PowerOfTwo(d.zoneShift))[m])
  }

  /** The zones of a file in order: those in the inode, then those in the single indirect block, then those in the blocks
      that the double indirect block names, one such block behind the other.  None stands where an indirect block is
      missing. */
  ghost predicate LaidOut(d: Disk, f: Inode, zs: seq<Option<nat>>)
    requires DiskOk(d) && |f.zone| >= d.nrDzones + 2
  {
    && |zs| == d.nrDzones + d.nrIndirects + d.nrIndirects * d.nrIndirects
    && (forall n :: 0 <= n < d.nrDzones ==> zs[n] == Some(f.zone[n]))
    && (forall m :: 0 <= m < d.nrIndirects ==> zs[d.nrDzones + m] == Entry(d, f.zone[d.nrDzones], m))
    && (forall i, j :: 0 <= i < d.nrIndirects && 0 <= j < d.nrIndirects ==> Doubly(d, f, zs, i, j))
  }

  ghost predicate Doubly(d: Disk, f: Inode, zs: seq<Option<nat>>, i: nat, j: nat)
    requires DiskOk(d) && |f.zone| >= d.nrDzones + 2 && i < d.nrIndirects && j < d.nrIndirects
  {
    var at := d.nrDzones + d.nrIndirects + i * d.nrIndirects + j;
    && at < |zs|
    && zs[at] == match Entry(d, f.zone[d.nrDzones + 1], i)
                 case None => None
                 case Some(ind) => Entry(d, ind, j)
  }

  lemma {:induction false} ShlExactly(n: nat, shift: nat)
    ensures Shl(n, shift) == n * PowerOfTwo(shift)
    decreases shift
  {
    if shift > 0 {
      ShlExactly(2 * n, shift - 1);
      assert 2 * n * PowerOfTwo(shift - 1) == n * (2 * PowerOfTwo(shift - 1));
    }
  }

  lemma {:induction false} ShrExactly(n: nat, shift: nat)
    ensures Shr(n, shift) == n / PowerOfTwo(shift)
  {
    if shift > 0 {
      ShrExactly(n, shift - 1);
      HalfOfQuotient(n, PowerOfTwo(shift - 1));
    }
  }

  lemma HalfOfQuotient(n: nat, u: nat)
    requires u > 0
    ensures n / u / 2 == n / (2 * u)
  {
    var q := n / u;
    assert n == q * u + n % u;
    QuotientIs(n, 2 * u, q / 2, q % 2 * u + n % u) by {
      assert q * u == q / 2 * 2 * u + q % 2 * u;
      assert q / 2 * 2 * u == q / 2 * (2 * u);
    }
  }

  lemma QuotientIs(n: nat, m: nat, q: nat, r: nat)
    requires n == q * m + r && r < m
    ensures n / m == q && n % m == r
  {
    var p := n / m;
    assert n == p * m + n % m;
    if p < q { Mono(p + 1, q, m); }
    if q < p { Mono(q + 1, p, m); }
  }

  lemma InZone(d: Disk, b: nat)
    ensures var unit := PowerOfTwo(d.zoneShift); ZoneOf(d, b) == b / unit && IndexInZone(d, b) == b % unit
  {
    ShrExactly(b, d.zoneShift);
    ShlExactly(b / PowerOfTwo(d.zoneShift), d.zoneShift);
  }

  /** What the walk finds is what the layout says. */
  lemma WalkFollowsLayout(d: Disk, f: Inode, zs: seq<Option<nat>>, n: nat)
    requires DiskOk(d) && |f.zone| >= d.nrDzones + 2 && LaidOut(d, f, zs) && n < |zs|
    ensures zs[n] == match Walk(d, f, n) case NoIndirect => None case Zone(z) => Some(z)
  {
    hide PowerOfTwo, Shl;
    if n >= d.nrDzones + d.nrIndirects {
      var k := n - d.nrDzones - d.nrIndirects;
      DivBound(k, d.nrIndirects);
      var i, j := k / d.nrIndirects, k % d.nrIndirects;
      assert Doubly(d, f, zs, i, j) && k == i * d.nrIndirects + j;
      ShlExactly(f.zone[d.nrDzones + 1], d.zoneShift);
      if f.zone[d.nrDzones + 1] != 0 {
        ShlExactly(d.indirect(FirstBlock(d, f.zone[d.nrDzones + 1]))[i], d.zoneShift);
      }
    } else if n >= d.nrDzones {
      assert zs[d.nrDzones + (n - d.nrDzones)] == Entry(d, f.zone[d.nrDzones], n - d.nrDzones);
      ShlExactly(f.zone[d.nrDzones], d.zoneShift);
    }
  }

  lemma LayoutLength(d: Disk, f: Inode, zs: seq<Option<nat>>)
    requires DiskOk(d) && |f.zone| >= d.nrDzones + 2 && LaidOut(d, f, zs)
    ensures |zs| == Zones(d)
  {
  }

  /** Main result: with its zones laid out in the list zs, block i of zone n of a file is block i of the zone that is n-th in
      the list, where a zone has unit blocks; past the end of the file the answer is -1, and 0 where an indirect block is
      missing. */
  lemma BlockExactly(d: Disk, f: Inode, zs: seq<Option<nat>>, b: nat, n: nat, i: nat)
    requires DiskOk(d) && FileOk(d, f) && LaidOut(d, f, zs) && i < PowerOfTwo(d.zoneShift) && b == n * PowerOfTwo(d.zoneShift) + i
    ensures if d.blockSize == 0 || b * d.blockSize >= f.size then Block(d, f, b) == -1
            else n < |zs| && Block(d, f, b) == match zs[n] case None => 0 case Some(z) => z * PowerOfTwo(d.zoneShift) + i
  {
    hide Walk, Shl, Shr, IndexInZone, ZoneOf, LaidOut, PowerOfTwo;
    if !PastEnd(d, f, b) {
      InFile(d, f, b);
      InZone(d, b);
      QuotientIs(b, PowerOfTwo(d.zoneShift), n, i);
      LayoutLength(d, f, zs);
      WalkFollowsLayout(d, f, zs, n);
      match Walk(d, f, n)
      case NoIndirect =>
      case Zone(z) => ShlExactly(z, d.zoneShift);
    }
  }

  /** Every file has such a list. */
  lemma LayoutExists(d: Disk, f: Inode)
    requires DiskOk(d) && |f.zone| >= d.nrDzones + 2
    ensures exists zs :: LaidOut(d, f, zs)
  {
    var r := d.nrIndirects;
    var f0, f1 := f.zone[d.nrDzones], f.zone[d.nrDzones + 1];
    var single := seq(r, m requires 0 <= m < r => Entry(d, f0, m));
    var double := seq(r * r, k requires 0 <= k < r * r =>
      DivBound(k, r);
      match Entry(d, f1, k / r) case None => None case Some(ind) => Entry(d, ind, k % r));
    var zs := seq(d.nrDzones, n requires 0 <= n < d.nrDzones => Some(f.zone[n])) + single + double;
    forall i, j | 0 <= i < r && 0 <= j < r
      ensures Doubly(d, f, zs, i, j)
    {
      Mono(i + 1, r, r);
      QuotientIs(i * r + j, r, i, j);
      assert zs[d.nrDzones + r + i * r + j] == double[i * r + j];
    }
    assert LaidOut(d, f, zs);
  }

  // ---------------------------------------------------------------- the track buffer

  /** The first count sectors in the buffer are those of the disk from sector first on. */
  ghost predicate Holds(d: Disk, buf: seq<Bytes>, first: nat, count: nat) {
    |buf| == SECBUFS && count <= SECBUFS && forall i :: 0 <= i < count ==> buf[i] == d.sector(first + i)
  }

  /** Where a sector of the image is on the disk: -1 past the end, 0 in a hole. */
  function SectorOf(d: Disk, f: Inode, flat: bool, imageOff: nat, vsec: nat): (s: int)
    requires DiskOk(d) && FileOk(d, f)
    ensures s >= PAST_END
  {
    if flat then d.lowsec + imageOff + vsec
    else if d.blockSize == 0 then PAST_END
    else
      var ratio := d.blockSize / SECTOR_SIZE;
      var blk := Block(d, f, vsec / ratio);
      if blk == PAST_END then PAST_END else if blk == 0 then 0 else d.lowsec + blk * ratio + vsec % ratio
  }

  /** The bytes that an uncached read of that sector gives: zeros in a hole. */
  function Uncached(d: Disk, f: Inode, flat: bool, imageOff: nat, vsec: nat): Bytes
    requires DiskOk(d) && FileOk(d, f) && SectorOf(d, f, flat, imageOff, vsec) != PAST_END
  {
    var s := SectorOf(d, f, flat, imageOff, vsec);
    if s == 0 then Zeros(SECTOR_SIZE) else d.sector(s)
  }

  /** Sectors vsec to vsec + n of the image lie on the disk one behind the other, within a track. */
  predicate Follows(d: Disk, f: Inode, flat: bool, imageOff: nat, vsec: nat, n: nat)
    requires DiskOk(d) && FileOk(d, f)
  {
    var sec := SectorOf(d, f, flat, imageOff, vsec);
    sec >= 0 && !d.boundary(sec + n) && SectorOf(d, f, flat, imageOff, vsec + n) == sec + n
  }

  /** How many sectors from vsec on can be read at once, n of which are known already. */
  function Track(d: Disk, f: Inode, flat: bool, imageOff: nat, vsec: nat, n: nat): (r: nat)
    requires DiskOk(d) && FileOk(d, f) && n <= SECBUFS
    ensures n <= r <= SECBUFS && (forall k :: n <= k < r ==> Follows(d, f, flat, imageOff, vsec, k))
    ensures r < SECBUFS ==> !Follows(d, f, flat, imageOff, vsec, r)
    decreases SECBUFS - n
  {
    if n < SECBUFS && Follows(d, f, flat, imageOff, vsec, n) then Track(d, f, flat, imageOff, vsec, n + 1) else n
  }

  lemma TrackStep(d: Disk, f: Inode, flat: bool, imageOff: nat, vsec: nat, n: nat)
    requires DiskOk(d) && FileOk(d, f) && n <= SECBUFS
    ensures Track(d, f, flat, imageOff, vsec, n)
            == if n < SECBUFS && Follows(d, f, flat, imageOff, vsec, n) then Track(d, f, flat, imageOff, vsec, n + 1) else n
  {
  }

  /** Where the sectors of the image are.  Of a device they follow each other from lowsec + imageOff on.  Of a file, those
      of a block follow each other, and there are none past the end and zeros in a hole. */
  lemma SectorExactly(d: Disk, f: Inode, imageOff: nat, vsec: nat, b: nat, k: nat)
    requires DiskOk(d) && FileOk(d, f) && k < d.blockSize / SECTOR_SIZE
    ensures SectorOf(d, f, true, imageOff, vsec) == d.lowsec + imageOff + vsec
    ensures var ratio, blk := d.blockSize / SECTOR_SIZE, Block(d, f, b);
            SectorOf(d, f, false, imageOff, b * ratio + k)
            == if blk == -1 then -1 else if blk == 0 then 0 else d.lowsec + blk * ratio + k
  {
    hide Block, FileOk;
    QuotientIs(b * (d.blockSize / SECTOR_SIZE) + k, d.blockSize / SECTOR_SIZE, b, k);
  }

  /** Sector i after the one at vsec is next on the disk and in the file, and not on the next track. */
  predicate Next(d: Disk, f: Inode, flat: bool, imageOff: nat, vsec: nat, i: nat)
    requires DiskOk(d) && FileOk(d, f) && SectorOf(d, f, flat, imageOff, vsec) >= 0
  {
    var sec := SectorOf(d, f, flat, imageOff, vsec);
    SectorOf(d, f, flat, imageOff, vsec + i) == sec + i && !d.boundary(sec + i)
  }

  /** What is read ahead: sector k after the first is exactly if it and all before it are such. */
  lemma {:induction false} TrackExactly(d: Disk, f: Inode, flat: bool, imageOff: nat, vsec: nat, n: nat, k: nat)
    requires DiskOk(d) && FileOk(d, f) && SectorOf(d, f, flat, imageOff, vsec) >= 0 && n <= k < SECBUFS
    ensures k < Track(d, f, flat, imageOff, vsec, n) <==> forall i :: n <= i <= k ==> Next(d, f, flat, imageOff, vsec, i)
    decreases SECBUFS - n
  {
    hide SectorOf, FileOk, DiskOk, Track;
    TrackStep(d, f, flat, imageOff, vsec, n);
    assert Follows(d, f, flat, imageOff, vsec, n) <==> Next(d, f, flat, imageOff, vsec, n);
    if n < k && Follows(d, f, flat, imageOff, vsec, n) { TrackExactly(d, f, flat, imageOff, vsec, n + 1, k); }
  }

  // ---------------------------------------------------------------- the program

  /** The static variables of rawfs.c and of get_sector(). */
  class Reader {
    const d: Disk
    const flat: bool
    const imageOff: nat
    var curfil: Inode
    var indir: seq<nat>
    var dindir: seq<nat>
    var aIndir: nat
    var aDindir: nat
    var buf: seq<Bytes>
    var count: nat
    var bufsec: nat

    /** An indirect block that is remembered is what the disk holds. */
    ghost predicate MapOk()
      reads this`curfil, this`indir, this`dindir, this`aIndir, this`aDindir
    {
      && DiskOk(d) && FileOk(d, curfil)
      && (aIndir != 0 ==> indir == d.indirect(aIndir))
      && (aDindir != 0 ==> dindir == d.indirect(aDindir))
    }

    /** And so is every sector in the track buffer. */
    ghost predicate Valid()
      reads this
    {
      MapOk() && Holds(d, buf, bufsec, count)
    }

    constructor (d: Disk, flat: bool, imageOff: nat)
      requires DiskOk(d)
      ensures Valid() && this.d == d && this.flat == flat && this.imageOff == imageOff
    {
      this.d, this.flat, this.imageOff := d, flat, imageOff;
      curfil := Inode(0, seq(d.nrDzones + 2, _ => 0));
      indir, dindir, aIndir, aDindir := [], [], 0, 0;
      buf, count, bufsec := seq(SECBUFS, _ => []), 0, 0;
    }

    /** r_stat() */
    method Stat(inum: nat)
      requires Valid() && FileOk(d, d.inode(inum))
      modifies this`curfil, this`aIndir, this`aDindir
      ensures Valid() && curfil == d.inode(inum)
    {
      curfil := d.inode(inum);
      aIndir, aDindir := 0, 0;
    }

    /** The zone number in the indirect block of zone ind, through the cache of single indirect blocks. */
    method Indirect(ind: nat, m: nat) returns (zone: nat)
      requires MapOk() && ind > 0 && m < d.nrIndirects
      modifies this`indir, this`aIndir
      ensures MapOk() && zone == d.indirect(FirstBlock(d, ind))[m]
    {
      hide FirstBlock, FileOk;
      FirstBlockPositive(d, ind);
      var at := FirstBlock(d, ind);
      if aIndir != at {
        indir := d.indirect(at);
        aIndir := at;
      }
      zone := indir[m];
    }

    /** The same for the double indirect block. */
    method DoubleIndirect(ind: nat, m: nat) returns (zone: nat)
      requires MapOk() && ind > 0 && m < d.nrIndirects
      modifies this`dindir, this`aDindir
      ensures MapOk() && zone == d.indirect(FirstBlock(d, ind))[m]
    {
      hide FirstBlock, FileOk;
      FirstBlockPositive(d, ind);
      var at := FirstBlock(d, ind);
      if aDindir != at {
        dindir := d.indirect(at);
        aDindir := at;
      }
      zone := dindir[m];
    }

    /** r_vir2abs() */
    method VirToAbs(b: nat) returns (z: int)
      requires MapOk()
      modifies this`indir, this`dindir, this`aIndir, this`aDindir
      ensures MapOk() && z == Block(d, curfil, b)
    {
      hide FirstBlock, ZoneOf, IndexInZone, PastEnd;
      if PastEnd(d, curfil, b) { return PAST_END; }
      InFile(d, curfil, b);
      var zone := ZoneOf(d, b);
      if zone < d.nrDzones { return FirstBlock(d, curfil.zone[zone]) + IndexInZone(d, b); }
      zone := zone - d.nrDzones;
      var ind;
      if zone < d.nrIndirects {
        ind := curfil.zone[d.nrDzones];
      } else {
        ind := curfil.zone[d.nrDzones + 1];
        if ind == 0 { return 0; }
        zone := zone - d.nrIndirects;
        DivBound(zone, d.nrIndirects);
        ind := DoubleIndirect(ind, zone / d.nrIndirects);
        zone := zone % d.nrIndirects;
      }
      if ind == 0 { return 0; }
      zone := Indirect(ind, zone);
      return FirstBlock(d, zone) + IndexInZone(d, b);
    }

    /** (*vir2sec)(): file_vir2sec() or flat_vir2sec() */
    method VirToSec(vsec: nat) returns (sec: int)
      requires MapOk()
      modifies this`indir, this`dindir, this`aIndir, this`aDindir
      ensures MapOk() && sec == SectorOf(d, curfil, flat, imageOff, vsec)
    {
      hide Block, FileOk;
      if flat { return d.lowsec + imageOff + vsec; }
      if d.blockSize == 0 { return PAST_END; }
      var ratio := d.blockSize / SECTOR_SIZE;
      var blk := VirToAbs(vsec / ratio);
      if blk == PAST_END { return PAST_END; }
      return if blk == 0 then 0 else d.lowsec + blk * ratio + vsec % ratio;
    }

    /** get_sector(): the track buffer answers what it can; otherwise as many consecutive sectors as fit are
        read ahead.  The answer is that of an uncached read; there is none exactly if there is no such sector, or if it
        is not in the buffer and the track that starts there cannot be read. */
    method GetSector(vsec0: nat) returns (r: Option<Bytes>)
      requires Valid()
      modifies this`indir, this`dindir, this`aIndir, this`aDindir, this`buf, this`count, this`bufsec
      ensures Valid()
      ensures r.Some? ==> SectorOf(d, curfil, flat, imageOff, vsec0) != PAST_END
                          && r.value == Uncached(d, curfil, flat, imageOff, vsec0)
      ensures var sec := SectorOf(d, curfil, flat, imageOff, vsec0);
              r.None? <==> || sec == PAST_END
                           || (sec > 0 && !(vsec0 != 0 && old(bufsec) <= sec < old(bufsec) + old(count))
                               && !d.readable(sec, Track(d, curfil, flat, imageOff, vsec0, 1)))
    {
      hide SectorOf, FileOk, Zeros;
      if vsec0 == 0 { count := 0; }
      var sec := VirToSec(vsec0);
      if sec == PAST_END { return None; }
      if sec == 0 {
        count := 0;
        buf := buf[0 := Zeros(SECTOR_SIZE)];
        return Some(buf[0]);
      }
      // The subtraction is unsigned: a sector before the buffer is far behind it.
      if 0 <= sec - bufsec < count { return Some(buf[sec - bufsec]); }
      bufsec, count := sec, 0;
      var n := ReadAhead(vsec0);
      if !d.readable(bufsec, n) { return None; }
      Fill(n);
      return Some(buf[0]);
    }

    /** How many sectors from bufsec on, which is where vsec is, follow each other on the disk and in the file. */
    method ReadAhead(vsec0: nat) returns (n: nat)
      requires MapOk() && bufsec == SectorOf(d, curfil, flat, imageOff, vsec0)
      modifies this`indir, this`dindir, this`aIndir, this`aDindir
      ensures MapOk() && n == Track(d, curfil, flat, imageOff, vsec0, 1)
    {
      hide SectorOf, FileOk, Track, DiskOk;
      n := 1;
      var vsec := vsec0;
      while n < SECBUFS && !d.boundary(bufsec + n)
        invariant MapOk() && 1 <= n <= SECBUFS && vsec == vsec0 + n - 1
        invariant Track(d, curfil, flat, imageOff, vsec0, n) == Track(d, curfil, flat, imageOff, vsec0, 1)
      {
        TrackStep(d, curfil, flat, imageOff, vsec0, n);
        vsec := vsec + 1;
        var sec := VirToSec(vsec);
        if sec == PAST_END || sec != bufsec + n { return; }
        n := n + 1;
      }
      TrackStep(d, curfil, flat, imageOff, vsec0, n);
    }

    /** readsectors() */
    method Fill(n: nat)
      requires Holds(d, buf, bufsec, 0) && 1 <= n <= SECBUFS
      modifies this`buf, this`count
      ensures Holds(d, buf, bufsec, n) && count == n
    {
      count := 0;
      while count < n
        invariant count <= n && Holds(d, buf, bufsec, count)
      {
        buf := buf[count := d.sector(bufsec + count)];
        count := count + 1;
      }
    }
  }
}
