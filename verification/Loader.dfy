/** Loading the boot image: raw_clear, get_segment and the placement loop of exec_image in boot/bootimage.c.
    Memory is one array of bytes; an image is its sectors, some of which may be unreadable. */
module Loader {
  import opened ImageFormat

  const ZEROS: nat := 128
  const PROCESS_MAX: nat := 16

  datatype Sector = Unreadable | Data(bytes: Bytes)

  /** Sectors are SECTOR_SIZE bytes long. */
  predicate Sectored(image: seq<Sector>) {
    forall v :: 0 <= v < |image| && image[v].Data? ==> |image[v].bytes| == SECTOR_SIZE
  }

  /** Click sizes are powers of two from 16 to 65536: they divide a sector or are made of sectors. */
  predicate IsClick(c: nat) {
    c > 0 && (SECTOR_SIZE % c == 0 || c % SECTOR_SIZE == 0)
  }

  // ---------------------------------------------------------------- raw_copy() and raw_clear()

  /** m is before with b put in at addr. */
  predicate Placed(before: Bytes, m: Bytes, addr: nat, b: Bytes) {
    addr + |b| <= |before| && m == before[..addr] + b + before[addr + |b|..]
  }

  lemma PlacedThen(before: Bytes, m: Bytes, m': Bytes, addr: nat, b: Bytes, b': Bytes)
    requires Placed(before, m, addr, b) && Placed(m, m', addr + |b|, b')
    ensures Placed(before, m', addr, b + b')
  {
    assert m[..addr + |b|] == before[..addr] + b;
    assert m[addr + |b| + |b'|..] == before[addr + |b + b'|..];
  }

  lemma PlacedFrame(before: Bytes, m: Bytes, addr: nat, b: Bytes)
    requires Placed(before, m, addr, b)
    ensures |m| == |before| && addr + |b| <= |m|
    ensures forall a :: 0 <= a < |m| && !(addr <= a < addr + |b|) ==> m[a] == before[a]
    ensures m[addr..addr + |b|] == b
  {
  }

  lemma PlacedNothing(before: Bytes, addr: nat)
    requires addr <= |before|
    ensures Placed(before, before, addr, [])
  {
  }

  /** raw_copy() from the monitor's own memory */
  method CopyIn(mem: array<Byte>, dst: nat, b: Bytes)
    requires dst + |b| <= mem.Length
    modifies mem
    ensures Placed(old(mem[..]), mem[..], dst, b)
  {
    var i := 0;
    while i < |b|
      invariant 0 <= i <= |b|
      invariant forall k :: 0 <= k < i ==> mem[dst + k] == b[k]
      invariant forall a :: 0 <= a < mem.Length && !(dst <= a < dst + i) ==> mem[a] == old(mem[a])
    {
      mem[dst + i] := b[i];
      i := i + 1;
    }
  }

  /** raw_copy() between two places of memory that do not overlap */
  method RawCopy(mem: array<Byte>, dst: nat, src: nat, n: nat)
    requires dst + n <= mem.Length && src + n <= dst
    modifies mem
    ensures Placed(old(mem[..]), mem[..], dst, old(mem[src..src + n]))
  {
    ghost var b := mem[src..src + n];
    var i := 0;
    while i < n
      invariant 0 <= i <= n
      invariant forall k :: 0 <= k < i ==> mem[dst + k] == b[k]
      invariant forall a :: 0 <= a < mem.Length && !(dst <= a < dst + i) ==> mem[a] == old(mem[a])
    {
      assert mem[src + i] == b[i];
      mem[dst + i] := mem[src + i];
      i := i + 1;
    }
  }

  lemma MoreZeros(a: nat, b: nat)
    ensures Zeros(a) + Zeros(b) == Zeros(a + b)
  {
    ZerosOnly(Zeros(a) + Zeros(b));
  }

  lemma FewerZeros(n: nat, k: nat)
    requires k <= n
    ensures Zeros(n)[..k] == Zeros(k)
  {
    ZerosOnly(Zeros(n)[..k]);
  }

  /** raw_clear(): what is clear already is copied, twice as much each time. */
  method RawClear(mem: array<Byte>, addr: nat, count: nat)
    requires addr + count <= mem.Length
    modifies mem
    ensures Placed(old(mem[..]), mem[..], addr, Zeros(count))
  {
    hide Zeros, Placed;
    ghost var before := mem[..];
    var zct := ZEROS;
    var left := count;
    if zct > left { zct := left; }
    CopyIn(mem, addr, Zeros(zct));
    left := left - zct;
    while left > 0
      invariant 0 <= left <= count && (left > 0 ==> 0 < zct == count - left)
      invariant Placed(before, mem[..], addr, Zeros(count - left))
    {
      var dst := addr + zct;
      if zct > left { zct := left; }
      CopyZeros(mem, addr, dst, zct, before);
      left := left - zct;
      zct := zct * 2;
    }
  }

  /** The first z of the zeros between addr and dst are put behind them. */
  method CopyZeros(mem: array<Byte>, addr: nat, dst: nat, z: nat, ghost before: Bytes)
    requires addr + z <= dst && dst + z <= mem.Length && Placed(before, mem[..], addr, Zeros(dst - addr))
    modifies mem
    ensures Placed(before, mem[..], addr, Zeros(dst - addr + z))
  {
    hide Zeros, Placed;
    ghost var m := mem[..];
    ZerosThere(before, m, addr, dst - addr, z);
    RawCopy(mem, dst, addr, z);
    assert m[addr..addr + z] == old(mem[addr..addr + z]);
    PlacedThen(before, m, mem[..], addr, Zeros(dst - addr), Zeros(z));
    MoreZeros(dst - addr, z);
  }

  lemma ZerosThere(before: Bytes, m: Bytes, addr: nat, n: nat, z: nat)
    requires Placed(before, m, addr, Zeros(n)) && z <= n
    ensures m[addr..addr + z] == Zeros(z)
  {
    assert m[addr..addr + z] == Zeros(n)[..z];
    FewerZeros(n, z);
  }

  // ---------------------------------------------------------------- get_segment()

  /** The bytes of n sectors from v on. */
  function Stream(image: seq<Sector>, v: nat, n: nat): (b: Bytes)
    requires Sectored(image) && Readable(image, v, n)
    ensures |b| == n * SECTOR_SIZE
  {
    if n == 0 then [] else Stream(image, v, n - 1) + image[v + n - 1].bytes
  }

  predicate Readable(image: seq<Sector>, v: nat, n: nat) {
    n > 0 ==> v + n <= |image| && forall i :: v <= i < v + n ==> image[i].Data?
  }

  /** align() */
  function Up(a: nat, c: nat): nat
    requires c > 0
  {
    (a + c - 1) / c * c
  }

  function Min(a: nat, b: nat): nat {
    if a < b then a else b
  }

  /** The bytes that the loop copies: whole sectors, or whole clicks if these are smaller. */
  function Copied(size: int, c: nat): nat
    requires c > 0
  {
    if size <= 0 then 0 else Up(size, Min(c, SECTOR_SIZE))
  }

  /** The room that the last chunk must find, counted from the start. */
  function Room(size: int, c: nat): nat
    requires c > 0
  {
    if size <= 0 then 0 else (size - 1) / Min(c, SECTOR_SIZE) * Min(c, SECTOR_SIZE) + c
  }

  /** What a segment of that size becomes in memory: what was copied, with zeros up to a click. */
  function Filled(stream: Bytes, size: int, c: nat): (b: Bytes)
    requires c > 0 && Copied(size, c) <= |stream|
  {
    stream[..Copied(size, c)] + Zeros(Up(Copied(size, c), c) - Copied(size, c))
  }

  lemma UpAgain(k: nat, c: nat, rest: nat)
    requires c > 0
    ensures Up(k * c + rest, c) == k * c + Up(rest, c)
  {
    assert (k * c + rest + c - 1) / c == k + (rest + c - 1) / c by {
      DivAdd(k, c, rest + c - 1);
    }
    assert (k + (rest + c - 1) / c) * c == k * c + (rest + c - 1) / c * c;
  }

  lemma MulMono(a: int, b: int, c: nat)
    requires a <= b
    ensures a * c <= b * c
  {
  }

  lemma DivUnique(n: nat, c: nat, q: nat)
    requires c > 0 && q * c <= n < q * c + c
    ensures n / c == q
  {
    var d := n / c;
    assert n == d * c + n % c;
    if d < q {
      MulMono(d + 1, q, c);
    } else if q < d {
      MulMono(q + 1, d, c);
    }
  }

  lemma DivAdd(k: nat, c: nat, n: nat)
    requires c > 0
    ensures (k * c + n) / c == k + n / c
  {
    assert n == n / c * c + n % c;
    assert (k + n / c) * c == k * c + n / c * c;
    DivUnique(k * c + n, c, k + n / c);
  }

  lemma UpBounds(a: nat, c: nat)
    requires c > 0
    ensures a <= Up(a, c) < a + c && Up(a, c) % c == 0
  {
    var n := a + c - 1;
    var q := n / c;
    assert n == q * c + n % c;
    ModZero(q, c);
  }

  lemma ModZero(q: nat, c: nat)
    requires c > 0
    ensures (q * c) % c == 0
  {
    DivUnique(q * c, c, q);
  }

  /** The least multiple of c that is no less than a. */
  lemma UpIs(a: nat, c: nat, q: nat)
    requires c > 0 && a <= q * c < a + c
    ensures Up(a, c) == q * c
  {
    DivUnique(a + c - 1, c, q);
  }

  lemma MulAssoc(a: int, b: int, c: int)
    ensures a * b * c == a * (c * b)
  {
  }

  /** Rounding up to sectors first makes no difference to clicks made of sectors. */
  lemma UpUp(a: nat, u: nat, m: nat, c: nat)
    requires u > 0 && m > 0 && c == u * m && c > 0
    ensures Up(Up(a, u), c) == Up(a, c)
  {
    UpBounds(a, u);
    UpBounds(a, c);
    var q, p := (a + c - 1) / c, (a + u - 1) / u;
    MulAssoc(q, m, u);
    NoMultipleBetween(p, q * m, u, a);
    UpIs(p * u, c, q);
  }

  lemma NoMultipleBetween(p: int, w: int, u: nat, a: int)
    requires p * u < a + u && a <= w * u
    ensures p * u <= w * u
  {
    if p > w { MulMono(w + 1, p, u); } else { MulMono(p, w, u); }
  }

  /** Once the loop has come to its end. */
  lemma AllCopied(size: int, c: nat, u: nat, r: nat, k: nat, s: nat)
    requires size > 0 && c > 0 && u == Min(c, SECTOR_SIZE) && r * u == SECTOR_SIZE && r > 0
    requires k > 0 && (k - 1) * u < size <= k * u && (s - 1) * r < k <= s * r
    ensures Copied(size, c) == k * u && Sectors(size) == s && Room(size, c) == k * u - u + c
  {
    hide Sectors;
    assert (k - 1) * u == k * u - u;
    UpIs(size, u, k);
    DivUnique(size - 1, u, k - 1);
    AllRead(size, u, r, k, s);
  }

  lemma AllRead(size: int, u: nat, r: nat, k: nat, s: nat)
    requires size > 0 && r * u == SECTOR_SIZE && r > 0
    requires k > 0 && (k - 1) * u < size <= k * u && (s - 1) * r < k <= s * r
    ensures Sectors(size) == s
  {
    hide Sectors;
    MulMono(k, s * r, u);
    MulMono((s - 1) * r, k - 1, u);
    MulAssoc(s, r, u);
    MulAssoc(s - 1, r, u);
    SectorsExactly(size, s);
  }

  lemma NotAllCopied(size: int, c: nat, u: nat, k: nat)
    requires size > 0 && c > 0 && u == Min(c, SECTOR_SIZE) && k * u < size
    ensures k * u + c <= Room(size, c)
  {
    var q := (size - 1) / u;
    assert size - 1 == q * u + (size - 1) % u;
    if q < k { MulMono(q + 1, k, u); }
    MulMono(k, q, u);
  }

  /** A click is the unit of copying, or made of units; a sector is always made of units. */
  lemma Units(c: nat) returns (u: nat, r: nat, m: nat)
    requires IsClick(c)
    ensures u == Min(c, SECTOR_SIZE) && u > 0 && r > 0 && m > 0 && r * u == SECTOR_SIZE && u * m == c && (r == 1 || m == 1)
  {
    u := Min(c, SECTOR_SIZE);
    if c <= SECTOR_SIZE {
      r, m := SECTOR_SIZE / c, 1;
      if c < SECTOR_SIZE { assert SECTOR_SIZE == SECTOR_SIZE / c * c + SECTOR_SIZE % c; }
    } else {
      r, m := 1, c / SECTOR_SIZE;
    }
  }

  lemma StreamMore(image: seq<Sector>, v: nat, n: nat)
    requires Sectored(image) && Readable(image, v, n + 1)
    ensures Stream(image, v, n + 1) == Stream(image, v, n) + image[v + n].bytes
  {
  }

  predicate Fits(image: seq<Sector>, v: nat, size: int, addr: nat, limit: nat, c: nat)
    requires c > 0
  {
    size > 0 ==> Readable(image, v, Sectors(size)) && addr + Room(size, c) <= limit
  }

  function SectorsOf(size: int): nat {
    if size <= 0 then 0 else Sectors(size)
  }

  function UpOf(size: int, c: nat): nat
    requires c > 0
  {
    if size <= 0 then 0 else Up(size, c)
  }

  lemma FilledLength(size: int, c: nat)
    requires IsClick(c)
    ensures Copied(size, c) <= SectorsOf(size) * SECTOR_SIZE
    ensures Up(Copied(size, c), c) == UpOf(size, c) >= Copied(size, c)
    ensures size > 0 ==> UpOf(size, c) <= Room(size, c)
  {
    var u, r, m := Units(c);
    if size > 0 {
      UpUp(size, u, m, c);
      UpBounds(Copied(size, c), c);
      UpBounds(size, u);
      LastChunk(size, c, u, m);
      SectorsHold(size, u, r);
    } else {
      DivUnique(c - 1, c, 0);
    }
  }

  lemma SectorsHold(size: nat, u: nat, r: nat)
    requires u > 0 && r * u == SECTOR_SIZE && size > 0
    ensures Up(size, u) <= Sectors(size) * SECTOR_SIZE
  {
    var p, s := (size + u - 1) / u, Sectors(size);
    UpBounds(size, u);
    assert s * SECTOR_SIZE == s * r * u by { assert s * (r * u) == s * r * u; }
    if p * u > s * SECTOR_SIZE { MulMono(s * r + 1, p, u); }
  }

  lemma LastChunk(size: int, c: nat, u: nat, m: nat)
    requires size > 0 && u > 0 && m > 0 && c == u * m && u == Min(c, SECTOR_SIZE)
    ensures Up(size, c) <= Room(size, c)
  {
    var k, q := (size - 1) / u, (size + c - 1) / c;
    assert size - 1 == k * u + (size - 1) % u;
    UpBounds(size, c);
    assert (q - 1) * c == q * c - c;
    assert (q - 1) * c < size;
    assert (q - 1) * c == (q - 1) * m * u by { assert (q - 1) * (m * u) == (q - 1) * m * u; }
    if (q - 1) * m > k { MulMono(k + 1, (q - 1) * m, u); }
    MulMono((q - 1) * m, k, u);
  }

  /** In an image that make_image made the rest of the last sector is zero, so behind the bytes of a segment there
      are nothing but zeros up to the click. */
  lemma FilledWithZeros(b: Bytes, c: nat)
    requires IsClick(c)
    ensures |b| <= UpOf(|b|, c) && Copied(|b|, c) <= |Padded(b)|
            && Filled(Padded(b), |b|, c) == b + Zeros(UpOf(|b|, c) - |b|)
  {
    FilledLength(|b|, c);
    var n := Copied(|b|, c);
    if |b| > 0 {
      UpBounds(|b|, Min(c, SECTOR_SIZE));
      var pad := Sectors(|b|) * SECTOR_SIZE - |b|;
      assert Padded(b)[..n] == b + Zeros(pad)[..n - |b|];
      FewerZeros(pad, n - |b|);
      MoreZeros(n - |b|, UpOf(|b|, c) - n);
      assert b + Zeros(n - |b|) + Zeros(UpOf(|b|, c) - n) == b + (Zeros(n - |b|) + Zeros(UpOf(|b|, c) - n));
    } else {
      assert Filled(Padded(b), |b|, c) == b + Zeros(0);
    }
  }

  /** How far the loop has come: done bytes in k units of u, s sectors read, j units left in the buffer.  A
      sector is r units, a click m. */
  datatype Walk = Walk(u: nat, r: nat, m: nat, k: nat, s: nat, j: nat, done: nat)

  ghost predicate Going(w: Walk, size: int, c: nat) {
    && w.u > 0 && w.r > 0 && w.m > 0 && w.u == Min(c, SECTOR_SIZE) && w.r * w.u == SECTOR_SIZE && w.u * w.m == c
    && (w.r == 1 || w.m == 1)
    && w.done == w.k * w.u && w.j == w.s * w.r - w.k && w.j <= w.r
    && (if w.k == 0 then w.s <= 1 && (w.s == 1 ==> size > 0) else (w.k - 1) * w.u < size && (w.s - 1) * w.r <= w.k)
  }

  lemma WalkStarts(size: int, c: nat) returns (w: Walk)
    requires IsClick(c)
    ensures Going(w, size, c) && w.done == 0 && w.s == 0 && w.j == 0 < w.r
  {
    var u, r, m := Units(c);
    w := Walk(u, r, m, 0, 0, 0, 0);
  }

  /** What is left in the buffer. */
  lemma WalkBuffer(w: Walk, size: int, c: nat)
    requires Going(w, size, c)
    ensures w.j * w.u == w.s * SECTOR_SIZE - w.done && w.done <= w.s * SECTOR_SIZE && (w.done == w.s * SECTOR_SIZE <==> w.j == 0)
  {
    MulAssoc(w.s, w.r, w.u);
    assert (w.s * w.r - w.k) * w.u == w.s * w.r * w.u - w.k * w.u;
    if w.j > 0 { MulMono(1, w.j, w.u); }
  }

  /** The buffer is used up and there is more to come: one more sector of the segment is needed. */
  lemma WalkReads(w: Walk, size: int, c: nat)
    requires Going(w, size, c) && w.done == w.s * SECTOR_SIZE && w.done < size
    ensures w.s < Sectors(size) && Going(w.(s := w.s + 1, j := w.r), size, c)
  {
    WalkBuffer(w, size, c);
    SectorsCover(size, w.s);
  }

  /** A chunk is one unit. */
  lemma WalkCopies(w: Walk, size: int, c: nat)
    requires Going(w, size, c) && w.done < w.s * SECTOR_SIZE && w.done < size
    ensures w.done + w.u <= w.s * SECTOR_SIZE && w.j > 0 && w.j - 1 < w.r && w.u > 0
    ensures Going(w.(k := w.k + 1, j := w.j - 1, done := w.done + w.u), size, c)
  {
    WalkBuffer(w, size, c);
    MulMono(1, w.j, w.u);
  }

  lemma WalkChunk(w: Walk, size: int, c: nat)
    requires Going(w, size, c) && w.done < w.s * SECTOR_SIZE && w.done < size && IsClick(c)
    ensures w.done + c <= Room(size, c) && Min(c, w.s * SECTOR_SIZE - w.done) == w.u <= c
  {
    WalkBuffer(w, size, c);
    MulMono(1, w.j, w.u);
    NotAllCopied(size, c, w.u, w.k);
    MulMono(1, w.m, w.u);
  }

  lemma WalkEnds(w: Walk, size: int, c: nat, addr: nat)
    requires Going(w, size, c) && size <= w.done && IsClick(c) && c > 0 && addr % c == 0
    requires w.j < w.r && (size <= 0 ==> w.s == 0)
    ensures Copied(size, c) == w.done && SectorsOf(size) == w.s && w.done <= w.s * SECTOR_SIZE
    ensures (addr + w.done + c - 1) / c * c == addr + UpOf(size, c) && UpOf(size, c) == Up(w.done, c) >= w.done
    ensures size > 0 ==> UpOf(size, c) <= Room(size, c) == w.done - w.u + c && w.k > 0
  {
    hide Copied, Sectors, Up, Room, IsClick;
    WalkBuffer(w, size, c);
    if size > 0 {
      assert w.k > 0;
      assert (w.s - 1) * w.r == w.s * w.r - w.r;
      AllCopied(size, c, w.u, w.r, w.k, w.s);
    }
    FilledLength(size, c);
    EndOfZeros(addr, w.done, c);
  }

  lemma EndOfZeros(addr: nat, done: nat, c: nat)
    requires IsClick(c) && addr % c == 0
    ensures c > 0 && (addr + done + c - 1) / c * c == addr + Up(done, c)
  {
    var q := addr / c;
    assert addr == q * c;
    UpAgain(q, c, done);
  }

  /** What holds between two turns of get_segment's loop. */
  ghost predicate Loading(image: seq<Sector>, v0: nat, size0: int, addr0: nat, limit: nat, c: nat, before: Bytes, m: Bytes,
                          w: Walk, read: Bytes)
    requires Sectored(image)
  {
    && Going(w, size0, c) && w.j < w.r && (size0 <= 0 ==> w.s == 0)
    && Readable(image, v0, w.s) && read == Stream(image, v0, w.s) && w.done <= |read|
    && addr0 + w.done <= limit && (w.k > 0 ==> addr0 + w.done - w.u + c <= limit)
    && Placed(before, m, addr0, read[..w.done])
  }

  /** One turn of the loop: the next sector if the buffer is used up, then one chunk. */
  method LoadChunk(image: seq<Sector>, v0: nat, size0: int, addr0: nat, limit: nat, c: nat, mem: array<Byte>,
                   addr: nat, vsec: nat, buf0: Bytes, ghost w0: Walk, ghost read0: Bytes, ghost before: Bytes)
    returns (ok: bool, n: nat, v: nat, buf: Bytes, ghost w: Walk, ghost read: Bytes)
    requires Sectored(image) && IsClick(c) && limit <= mem.Length
    requires Loading(image, v0, size0, addr0, limit, c, before, mem[..], w0, read0) && w0.done < size0
    requires addr == addr0 + w0.done && vsec == v0 + w0.s && buf0 == read0[w0.done..]
    modifies mem
    ensures ok ==> Loading(image, v0, size0, addr0, limit, c, before, mem[..], w, read) && buf == read[w.done..]
    ensures ok ==> n == w.done - w0.done > 0 && v == v0 + w.s
    ensures !ok ==> mem[..] == old(mem[..]) && !Fits(image, v0, size0, addr0, limit, c)
  {
    hide Stream, Placed, Going, Fits, Sectored, Room, Readable, IsClick;
    ClickPositive(c);
    n, v, buf, w, read := 0, vsec, buf0, w0, read0;
    if buf == [] {
      if v >= |image| || image[v].Unreadable? {
        NoSector(image, v0, size0, addr0, limit, c, w);
        return false, n, v, buf, w, read;
      }
      NextSector(image, v0, size0, c, w, read);
      buf := image[v].bytes;
      read := read + buf;
      v, w := v + 1, w.(s := w.s + 1, j := w.r);
    }
    WalkChunk(w, size0, c);
    if addr + c > limit {
      NoRoom(image, v0, size0, addr0, limit, c, w.done);
      return false, n, v, buf, w, read;
    }
    n := c;
    if n > |buf| { n := |buf|; }
    WalkCopies(w, size0, c);
    CopyChunk(mem, addr, buf[..n], before, addr0, read[..w.done]);
    assert read[..w.done] + buf[..n] == read[..w.done + n];
    buf := buf[n..];
    w := w.(k := w.k + 1, j := w.j - 1, done := w.done + w.u);
    ok := true;
  }

  lemma NoSector(image: seq<Sector>, v0: nat, size: int, addr: nat, limit: nat, c: nat, w: Walk)
    requires c > 0 && Going(w, size, c) && w.done == w.s * SECTOR_SIZE && w.done < size
    requires v0 + w.s >= |image| || image[v0 + w.s].Unreadable?
    ensures !Fits(image, v0, size, addr, limit, c)
  {
    WalkReads(w, size, c);
  }

  lemma NoRoom(image: seq<Sector>, v0: nat, size: int, addr: nat, limit: nat, c: nat, done: nat)
    requires size > 0 && c > 0 && done + c <= Room(size, c) && addr + done + c > limit
    ensures !Fits(image, v0, size, addr, limit, c)
  {
  }

  lemma NextSector(image: seq<Sector>, v0: nat, size: int, c: nat, w: Walk, read: Bytes)
    requires Sectored(image) && Going(w, size, c) && w.done == w.s * SECTOR_SIZE && w.done < size
    requires Readable(image, v0, w.s) && read == Stream(image, v0, w.s)
    requires v0 + w.s < |image| && image[v0 + w.s].Data?
    ensures Going(w.(s := w.s + 1, j := w.r), size, c) && Readable(image, v0, w.s + 1)
    ensures read + image[v0 + w.s].bytes == Stream(image, v0, w.s + 1) && |image[v0 + w.s].bytes| == SECTOR_SIZE
    ensures |read| == w.s * SECTOR_SIZE && (read + image[v0 + w.s].bytes)[..w.done] == read[..w.done]
  {
    WalkReads(w, size, c);
    StreamMore(image, v0, w.s);
  }

  lemma LoadingFrame(image: seq<Sector>, v0: nat, size0: int, addr0: nat, limit: nat, c: nat, before: Bytes, m: Bytes,
                     w: Walk, read: Bytes)
    requires Sectored(image) && Loading(image, v0, size0, addr0, limit, c, before, m, w, read)
    ensures |m| == |before| && forall a :: 0 <= a < |m| && !(addr0 <= a < limit) ==> m[a] == before[a]
  {
    PlacedFrame(before, m, addr0, read[..w.done]);
  }

  /** get_segment().  It succeeds iff the sectors can be read and the last chunk finds room for a click; then the
      segment is in memory, in order and with zeros up to the next click.  In no case does it write below its
      start or at the limit or above. */
  method GetSegment(image: seq<Sector>, v0: nat, size0: int, addr0: nat, limit: nat, c: nat, mem: array<Byte>)
    returns (ok: bool, v: nat, size: int, addr: nat)
    requires Sectored(image) && IsClick(c) && addr0 % c == 0 && addr0 <= limit <= mem.Length
    modifies mem
    ensures ok <==> Fits(image, v0, size0, addr0, limit, c)
    ensures ok ==> v == v0 + SectorsOf(size0) && addr == addr0 + UpOf(size0, c) <= limit && size == size0 - UpOf(size0, c)
    ensures ok ==> Readable(image, v0, SectorsOf(size0)) && Copied(size0, c) <= SectorsOf(size0) * SECTOR_SIZE
                   && Placed(old(mem[..]), mem[..], addr0, Filled(Stream(image, v0, SectorsOf(size0)), size0, c))
    ensures forall a :: 0 <= a < mem.Length && !(addr0 <= a < limit) ==> mem[a] == old(mem[a])
  {
    hide Stream, Zeros, Placed, Up, Room, Copied, Sectors, Going, IsClick, Loading, Fits;
    ghost var w := WalkStarts(size0, c);
    ghost var before := mem[..];
    ghost var read: Bytes := [];
    v, size, addr := v0, size0, addr0;
    var buf: Bytes := [];
    LoadingStarts(image, v0, size0, addr0, limit, c, before, w);
    while size > 0
      invariant size == size0 - w.done && addr == addr0 + w.done && v == v0 + w.s
      invariant Loading(image, v0, size0, addr0, limit, c, before, mem[..], w, read)
      invariant w.done <= |read| && buf == read[w.done..]
      decreases size
    {
      var n;
      LoadingFrame(image, v0, size0, addr0, limit, c, before, mem[..], w, read);
      ok, n, v, buf, w, read := LoadChunk(image, v0, size0, addr0, limit, c, mem, addr, v, buf, w, read, before);
      if !ok { return false, v, size, addr; }
      LoadingLength(image, v0, size0, addr0, limit, c, before, mem[..], w, read);
      addr, size := addr + n, size - n;
    }
    size, addr := Extend(image, v0, size0, addr0, limit, c, mem, addr, size, w, read, before);
    ok := true;
  }

  lemma LoadingStarts(image: seq<Sector>, v0: nat, size0: int, addr0: nat, limit: nat, c: nat, before: Bytes, w: Walk)
    requires Sectored(image) && Going(w, size0, c) && w.done == 0 && w.s == 0 && w.j < w.r && addr0 <= limit <= |before|
    ensures Loading(image, v0, size0, addr0, limit, c, before, before, w, [])
  {
    PlacedNothing(before, addr0);
  }

  lemma LoadingLength(image: seq<Sector>, v0: nat, size0: int, addr0: nat, limit: nat, c: nat, before: Bytes, m: Bytes,
                      w: Walk, read: Bytes)
    requires Sectored(image) && Loading(image, v0, size0, addr0, limit, c, before, m, w, read)
    ensures w.done <= |read|
  {
  }

  /** The zero extension at the end of get_segment. */
  method Extend(image: seq<Sector>, v0: nat, size0: int, addr0: nat, limit: nat, c: nat, mem: array<Byte>,
                addr: nat, size: int, ghost w: Walk, ghost read: Bytes, ghost before: Bytes)
    returns (left: int, end: nat)
    requires Sectored(image) && IsClick(c) && addr0 % c == 0 && limit <= mem.Length
    requires Loading(image, v0, size0, addr0, limit, c, before, mem[..], w, read) && size0 <= w.done
    requires addr == addr0 + w.done && size == size0 - w.done
    modifies mem
    ensures end == addr0 + UpOf(size0, c) <= limit && left == size0 - UpOf(size0, c) && w.s == SectorsOf(size0)
    ensures Fits(image, v0, size0, addr0, limit, c)
    ensures Readable(image, v0, SectorsOf(size0)) && Copied(size0, c) <= SectorsOf(size0) * SECTOR_SIZE
            && Placed(before, mem[..], addr0, Filled(Stream(image, v0, SectorsOf(size0)), size0, c))
    ensures forall a :: 0 <= a < mem.Length && !(addr0 <= a < limit) ==> mem[a] == before[a]
  {
    hide Stream, Zeros, Placed, Up, Room, Copied, Sectors, Going;
    var n := (addr + c - 1) / c * c - addr;
    WalkEnds(w, size0, c, addr0);
    ClearChunk(mem, addr, n, before, addr0, read[..w.done]);
    PlacedFrame(before, mem[..], addr0, read[..w.done] + Zeros(n));
    left, end := size - n, addr + n;
  }

  method CopyChunk(mem: array<Byte>, addr: nat, b: Bytes, ghost before: Bytes, ghost addr0: nat, ghost done: Bytes)
    requires addr + |b| <= mem.Length && addr == addr0 + |done| && Placed(before, mem[..], addr0, done)
    modifies mem
    ensures Placed(before, mem[..], addr0, done + b)
  {
    hide Placed;
    ghost var was := mem[..];
    CopyIn(mem, addr, b);
    PlacedThen(before, was, mem[..], addr0, done, b);
  }

  method ClearChunk(mem: array<Byte>, addr: nat, n: nat, ghost before: Bytes, ghost addr0: nat, ghost done: Bytes)
    requires addr + n <= mem.Length && addr == addr0 + |done| && Placed(before, mem[..], addr0, done)
    modifies mem
    ensures Placed(before, mem[..], addr0, done + Zeros(n))
  {
    hide Placed;
    ghost var was := mem[..];
    RawClear(mem, addr, n);
    PlacedThen(before, was, mem[..], addr0, done, Zeros(n));
  }

  // ---------------------------------------------------------------- exec_image(): one program

  const KERNEL: nat := 0
  const BSS: nat := 16
  const TOTAL: nat := 24
  const A_UZP: nat := 1

  /** struct process, and where its memory starts */
  datatype Process = Process(start: nat, cs: int, ds: int, data: nat, end: nat, uzp: bool)

  /** The feature bits of the kernel that matter here. */
  datatype Features = Features(claim: bool, chmem: bool, high: bool)

  /** bss and total are not negative, and the total has room for what the program is made of. */
  predicate Sane(e: Bytes) {
    && IsHeader(e) && Long(e, BSS) + 0x2_0000 < 0x8000_0000 && Long(e, TOTAL) + 0x2_0000 < 0x8000_0000
    && Long(e, DATA) + Long(e, BSS) + (if Flag(e, A_SEP) then 0 else Long(e, TEXT)) <= Long(e, TOTAL)
  }

  /** align() of what may be a negative long */
  function AlignLong(a: int, c: nat): nat
    requires c > 0
  {
    (a + c - 1) % M32 / c * c
  }

  /** Left over from a segment that has been placed, or still to be placed: never a whole click below zero. */
  lemma AlignLeftover(a: int, c: nat)
    requires 0 < c <= 0x1_0000 && 0 < a + c && a < 0x8000_0000
    ensures AlignLong(a, c) == UpOf(a, c) && AlignLong(a, c) % c == 0 && a - AlignLong(a, c) <= 0 < a - AlignLong(a, c) + c
  {
    if a <= 0 {
      DivUnique(a + c - 1, c, 0);
      ModZero(0, c);
    } else {
      UpBounds(a, c);
    }
  }

  /** What the program is in memory, as long as its segments can be read. */
  function Segments(image: seq<Sector>, v: nat, e: Bytes, c: nat): (b: Bytes)
    requires Sectored(image) && IsClick(c) && IsHeader(e) && Readable(image, v, TotalSectors(Parts(e)))
  {
    if Flag(e, A_SEP) then
      TwoSegments(e);
      FilledLength(TextLen(e), c);
      FilledLength(Long(e, DATA), c);
      Filled(Stream(image, v, SectorsOf(TextLen(e))), TextLen(e), c)
      + Filled(Stream(image, v + SectorsOf(TextLen(e)), SectorsOf(Long(e, DATA))), Long(e, DATA), c)
    else
      TwoSegments(e);
      FilledLength(TextLen(e) + Long(e, DATA), c);
      Filled(Stream(image, v, SectorsOf(TextLen(e) + Long(e, DATA))), TextLen(e) + Long(e, DATA), c)
  }

  /** The segments can be read and find room between addr and the limit. */
  predicate SegmentsFit(image: seq<Sector>, v: nat, e: Bytes, addr: nat, limit: nat, c: nat)
    requires IsHeader(e) && c > 0
  {
    if Flag(e, A_SEP) then
      && Fits(image, v, TextLen(e), addr, limit, c)
      && Fits(image, v + SectorsOf(TextLen(e)), Long(e, DATA), DataStart(e, addr, c), limit, c)
    else Fits(image, v, LastSize(e), addr, limit, c)
  }

  /** Where the segment that has the data starts, and its size. */
  function DataStart(e: Bytes, addr: nat, c: nat): nat
    requires IsHeader(e) && c > 0
  {
    if Flag(e, A_SEP) then addr + UpOf(TextLen(e), c) else addr
  }

  function LastSize(e: Bytes): nat
    requires IsHeader(e)
  {
    if Flag(e, A_SEP) then Long(e, DATA) else TextLen(e) + Long(e, DATA)
  }

  lemma TwoSegments(e: Bytes)
    requires IsHeader(e)
    ensures TotalSectors(Parts(e)) == if Flag(e, A_SEP) then SectorsOf(TextLen(e)) + SectorsOf(Long(e, DATA))
                                      else SectorsOf(TextLen(e) + Long(e, DATA))
  {
    hide Long, Flag, TotalSectors;
    TotalOfTwo(TextLen(e), Long(e, DATA));
    TotalOfTwo(TextLen(e) + Long(e, DATA), 0);
  }

  lemma AlignedSum(a: nat, b: nat, c: nat)
    requires c > 0 && a % c == 0 && b % c == 0
    ensures (a + b) % c == 0
  {
    var p, q := a / c, b / c;
    assert a == p * c && b == q * c;
    assert (p + q) * c == a + b;
    ModZero(p + q, c);
  }

  lemma UpOfAligned(size: int, c: nat)
    requires c > 0
    ensures UpOf(size, c) % c == 0 && (size > 0 ==> size <= UpOf(size, c) < size + c)
  {
    if size > 0 { UpBounds(size, c); } else { ModZero(0, c); }
  }

  /** Text and data of one program: the sectors that proc_size counts, one after the other in memory. */
  method LoadSegments(image: seq<Sector>, v0: nat, e: Bytes, addr0: nat, limit: nat, c: nat, mem: array<Byte>)
    returns (ok: bool, v: nat, addr: nat, ds: nat, left: int)
    requires Sectored(image) && IsClick(c) && IsHeader(e) && addr0 % c == 0 && addr0 <= limit <= mem.Length
    modifies mem
    ensures ok <==> SegmentsFit(image, v0, e, addr0, limit, c)
    ensures ok ==> v == v0 + ProcSize(e) && addr0 <= ds <= addr <= limit && addr % c == 0
    ensures ok ==> ds == DataStart(e, addr0, c) && addr == ds + UpOf(LastSize(e), c) && left == Leftover(e, c)
    ensures ok ==> Readable(image, v0, TotalSectors(Parts(e)))
                   && addr == addr0 + |Segments(image, v0, e, c)| && Placed(old(mem[..]), mem[..], addr0, Segments(image, v0, e, c))
    ensures forall a :: 0 <= a < mem.Length && !(addr0 <= a < limit) ==> mem[a] == old(mem[a])
  {
    hide Stream, Filled, Placed, Up, Room, Copied, Sectors, Long, Flag, TotalSectors, UpOf, IsClick;
    ProcSizeIsSectors(e);
    TwoSegments(e);
    var text, data := TextLen(e), Long(e, DATA);
    if Flag(e, A_SEP) {
      ok, v, addr, ds, left := LoadApart(image, v0, text, data, addr0, limit, c, mem);
      if ok {
        FilledLengths(image, v0, SectorsOf(text), text, c);
        FilledLengths(image, v0 + SectorsOf(text), SectorsOf(data), data, c);
      }
    } else {
      ds := addr0;
      ClickPositive(c);
      UpOfAligned(text + data, c);
      ok, v, left, addr := GetSegment(image, v0, text + data, addr0, limit, c, mem);
      if ok {
        AlignedSum(addr0, UpOf(text + data, c), c);
        FilledLengths(image, v0, SectorsOf(text + data), text + data, c);
      }
    }
  }

  lemma ClickPositive(c: nat)
    requires IsClick(c)
    ensures c > 0
  {
  }

  /** Separate I&D: two segments, each filled up to a click. */
  method LoadApart(image: seq<Sector>, v0: nat, text: nat, data: nat, addr0: nat, limit: nat, c: nat, mem: array<Byte>)
    returns (ok: bool, v: nat, addr: nat, ds: nat, left: int)
    requires Sectored(image) && IsClick(c) && addr0 % c == 0 && addr0 <= limit <= mem.Length
    modifies mem
    ensures ok <==> Fits(image, v0, text, addr0, limit, c)
                    && Fits(image, v0 + SectorsOf(text), data, addr0 + UpOf(text, c), limit, c)
    ensures ok ==> v == v0 + SectorsOf(text) + SectorsOf(data) && addr0 <= ds <= addr <= limit && addr % c == 0
    ensures ok ==> ds == addr0 + UpOf(text, c) && left == data - UpOf(data, c) && addr == ds + UpOf(data, c)
    ensures ok ==> Readable(image, v0, SectorsOf(text)) && Readable(image, v0 + SectorsOf(text), SectorsOf(data))
                   && Copied(text, c) <= SectorsOf(text) * SECTOR_SIZE && Copied(data, c) <= SectorsOf(data) * SECTOR_SIZE
                   && Placed(old(mem[..]), mem[..], addr0,
                             Filled(Stream(image, v0, SectorsOf(text)), text, c)
                             + Filled(Stream(image, v0 + SectorsOf(text), SectorsOf(data)), data, c))
    ensures forall a :: 0 <= a < mem.Length && !(addr0 <= a < limit) ==> mem[a] == old(mem[a])
  {
    hide Stream, Filled, Placed, Up, Room, Copied, Sectors, UpOf, IsClick;
    ghost var before := mem[..];
    ClickPositive(c);
    UpOfAligned(text, c);
    UpOfAligned(data, c);
    ds := addr0;
    ok, v, left, addr := GetSegment(image, v0, text, addr0, limit, c, mem);
    if !ok { return; }
    AlignedSum(addr0, UpOf(text, c), c);
    ds := addr;
    ghost var between := mem[..];
    ok, v, left, addr := GetSegment(image, v, data, addr, limit, c, mem);
    if !ok { return; }
    AlignedSum(ds, UpOf(data, c), c);
    FilledLengths(image, v0, SectorsOf(text), text, c);
    PlacedThen(before, between, mem[..], addr0, Filled(Stream(image, v0, SectorsOf(text)), text, c),
               Filled(Stream(image, v0 + SectorsOf(text), SectorsOf(data)), data, c));
  }

  lemma FilledLengths(image: seq<Sector>, v: nat, n: nat, size: int, c: nat)
    requires Sectored(image) && Readable(image, v, n) && IsClick(c) && n == SectorsOf(size)
    ensures Copied(size, c) <= n * SECTOR_SIZE && |Filled(Stream(image, v, n), size, c)| == UpOf(size, c)
  {
    FilledLength(size, c);
  }

  /** What get_segment leaves of the size of the last segment: minus the bytes of zeros behind it. */
  function Leftover(e: Bytes, c: nat): (left: int)
    requires IsHeader(e) && c > 0
    ensures left <= 0 < left + c
  {
    UpOfAligned(LastSize(e), c);
    LastSize(e) - UpOf(LastSize(e), c)
  }

  /** With K_CLAIM all but the kernel get no bss and no stack. */
  function BssOf(e: Bytes, i: nat, f: Features): nat
    requires IsHeader(e)
  {
    if i != KERNEL && f.claim then 0 else Long(e, BSS)
  }

  /** The bytes of bss that still have to be cleared: these zeros count as bss already. */
  function BssClicks(e: Bytes, c: nat, i: nat, f: Features): nat
    requires IsHeader(e) && c > 0
  {
    UpOf(Leftover(e, c) + BssOf(e, i, f), c)
  }

  /** What is left over from a can be used for b: aligning in two steps is aligning the sum. */
  lemma UpInSteps(a: nat, b: nat, c: nat)
    requires c > 0
    ensures UpOf(a, c) + UpOf(a - UpOf(a, c) + b, c) == UpOf(a + b, c)
  {
    if a > 0 {
      UpBounds(a, c);
      var k, rest := (a + c - 1) / c, a - Up(a, c) + b;
      if rest > 0 { UpAgain(k, c, rest); } else { UpIs(a + b, c, k); }
    }
  }

  /** One turn of exec_image's loop.  (If the start is past the limit already, every way on ends in an error.) */
  method LoadProcess(image: seq<Sector>, v0: nat, e: Bytes, i: nat, f: Features, addr0: nat, limit: nat, c: nat, mem: array<Byte>)
    returns (ok: bool, v: nat, p: Process)
    requires Sectored(image) && IsClick(c) && c <= 0x1_0000 && Sane(e) && addr0 % c == 0 && limit <= mem.Length
    modifies mem
    ensures ok <==> ProcessFits(image, v0, e, i, f, addr0, limit, c)
    ensures ok ==> v == v0 + ProcSize(e) && p == ProcessAt(e, i, f, addr0, c) && p.end % c == 0
    ensures ok ==> Readable(image, v0, TotalSectors(Parts(e)))
                   && addr0 + |InMemory(image, v0, e, i, f, c)| <= p.end
                   && addr0 + |InMemory(image, v0, e, i, f, c)| <= limit
                   && Placed(old(mem[..]), mem[..], addr0, InMemory(image, v0, e, i, f, c))
    ensures forall a :: 0 <= a < mem.Length && !(addr0 <= a < limit) ==> mem[a] == old(mem[a])
  {
    hide Stream, Filled, Placed, Up, UpOf, Room, Copied, Sectors, IsClick, Long, Flag, TotalSectors, Segments, Zeros, ProcSize, SegmentsFit,
         LastSize, DataStart, BssOf, BssClicks, StackOf, AlignLong, Leftover;
    v, p := v0, Process(addr0, addr0, addr0, addr0, addr0, false);
    if addr0 > limit { return false, v, p; }
    ghost var before := mem[..];
    var addr, ds, left;
    ok, v, addr, ds, left := LoadSegments(image, v0, e, addr0, limit, c, mem);
    if !ok { return; }
    var bss, stack := BssOf(e, i, f), StackOf(e, i, f);
    Extent(e, i, f, c);
    var n := AlignLong(bss + left, c);
    if addr + n > limit { return false, v, p; }
    ClearChunk(mem, addr, n, before, addr0, Segments(image, v0, e, c));
    PlacedFrame(before, mem[..], addr0, InMemory(image, v0, e, i, f, c));
    var rest := bss + left - n;
    var m := AlignLong(stack + rest, c);
    AlignedSum(addr, n, c);
    AlignedSum(addr + n, m, c);
    var uzp := Flag(e, A_UZP);
    var down := if uzp then c else 0;
    p := Process(addr0, addr0 - down, ds - down, if Flag(e, A_SEP) then ds else addr0 + TextLen(e), addr + n + m, uzp);
  }

  /** Whole clicks of bss, and then of stack: together what the sum needs. */
  lemma Extent(e: Bytes, i: nat, f: Features, c: nat)
    requires Sane(e) && 0 < c <= 0x1_0000
    ensures var size, bss, stack := LastSize(e), BssOf(e, i, f), StackOf(e, i, f);
            var n := AlignLong(bss + Leftover(e, c), c);
            var m := AlignLong(stack + (bss + Leftover(e, c) - n), c);
            && n == BssClicks(e, c, i, f) && n % c == 0 && m % c == 0
            && UpOf(size, c) + n == UpOf(size + bss, c) && UpOf(size, c) + n + m == UpOf(size + bss + stack, c)
  {
    hide Long, Flag, UpOf, AlignLong;
    var size, bss, stack, left := LastSize(e), BssOf(e, i, f), StackOf(e, i, f), Leftover(e, c);
    AlignLeftover(bss + left, c);
    UpInSteps(size, bss, c);
    AlignLeftover(stack + (bss + left - AlignLong(bss + left, c)), c);
    UpInSteps(size + bss, stack, c);
  }

  /** A program takes up its size, aligned once, and no more. */
  function ProcessAt(e: Bytes, i: nat, f: Features, addr: nat, c: nat): Process
    requires Sane(e) && c > 0
  {
    var start, down := DataStart(e, addr, c), if Flag(e, A_UZP) then c else 0;
    Process(addr, addr - down, start - down, if Flag(e, A_SEP) then start else addr + TextLen(e),
            start + UpOf(LastSize(e) + BssOf(e, i, f) + StackOf(e, i, f), c), Flag(e, A_UZP))
  }

  /** There is room for all but the stack. */
  predicate ProcessFits(image: seq<Sector>, v: nat, e: Bytes, i: nat, f: Features, addr: nat, limit: nat, c: nat)
    requires IsHeader(e) && c > 0
  {
    addr <= limit && SegmentsFit(image, v, e, addr, limit, c) && DataStart(e, addr, c) + UpOf(LastSize(e) + BssOf(e, i, f), c) <= limit
  }

  /** What a program is in memory, without its stack. */
  function InMemory(image: seq<Sector>, v: nat, e: Bytes, i: nat, f: Features, c: nat): Bytes
    requires Sectored(image) && IsClick(c) && IsHeader(e) && Readable(image, v, TotalSectors(Parts(e)))
  {
    Segments(image, v, e, c) + Zeros(BssClicks(e, c, i, f))
  }

  /** The stack size, when the kernel listens to chmem. */
  function StackOf(e: Bytes, i: nat, f: Features): (n: int)
    requires Sane(e)
    ensures 0 <= n < 0x8000_0000 - 0x2_0000
  {
    if f.chmem && !(i != KERNEL && f.claim)
    then Long(e, TOTAL) - Long(e, DATA) - Long(e, BSS) - (if Flag(e, A_SEP) then 0 else Long(e, TEXT)) else 0
  }

  // ---------------------------------------------------------------- exec_image(): all programs

  const CLICK_OFF: nat := 2
  const FLAGS_OFF: nat := 4
  const HCLICK_SHIFT := 4
  const K_ALL := 0x01FF

  function Word(b: Bytes, at: nat): nat
    requires at + 2 <= |b|
  {
    b[at] as int + 0x100 * (b[at + 1] as int)
  }

  function Pow2(n: nat): nat {
    if n == 0 then 1 else 2 * Pow2(n - 1)
  }

  lemma ClickSizes(shift: nat)
    requires 4 <= shift <= 16
    ensures IsClick(Pow2(shift)) && 0x1_0000 % Pow2(shift) == 0 && Pow2(shift) <= 0x1_0000
  {
    assert Pow2(4) == 16 && Pow2(5) == 32 && Pow2(6) == 64 && Pow2(7) == 128 && Pow2(8) == 256;
    assert Pow2(9) == 512 && Pow2(10) == 1024 && Pow2(11) == 2048 && Pow2(12) == 4096 && Pow2(13) == 8192;
    assert Pow2(14) == 16384 && Pow2(15) == 32768 && Pow2(16) == 65536;
  }

  /** What the kernel's text says of the click size and the features. */
  function Declared(image: seq<Sector>, ksec: nat, e: Bytes): (r: Option<(nat, Features)>)
    requires Sectored(image) && IsHeader(e)
    ensures r.Some? ==> IsClick(r.value.0) && 0 < r.value.0 <= 0x1_0000 && 0x1_0000 % r.value.0 == 0
  {
    var text := if Flag(e, A_PAL) then e[HDRLEN] else 0;
    if ksec < |image| && image[ksec].Data? then
      var shift, flags := Word(image[ksec].bytes, text + CLICK_OFF), Word(image[ksec].bytes, text + FLAGS_OFF);
      if flags <= K_ALL && HCLICK_SHIFT <= shift <= 16 then
        ClickSizes(shift);
        Some((Pow2(shift), Features(flags / 2 % 2 == 1, flags / 4 % 2 == 1, flags / 8 % 2 == 1)))
      else None
    else None
  }

  /** The features and the click size that a kernel asks for, bit by bit: the second word of its text is the shift, the
      third has the feature bits, of which there are nine. */
  lemma DeclaredExactly(image: seq<Sector>, ksec: nat, e: Bytes, c: nat, f: Features)
    requires Sectored(image) && IsHeader(e)
    ensures Declared(image, ksec, e) == Some((c, f))
            <==> && ksec < |image| && image[ksec].Data?
                 && var b, at := image[ksec].bytes, if Flag(e, A_PAL) then e[HDRLEN] else 0;
                       var flags := b[at + 4] as int + 0x100 * (b[at + 5] as int);
                    && flags < 0x200 && b[at + 3] == 0 && 4 <= b[at + 2] <= 16
                    && c == [16, 32, 64, 128, 256, 512, 1024, 2048, 4096, 8192, 16384, 32768, 65536][b[at + 2] - 4]
                    && f.claim == (flags / 2 % 2 == 1) && f.chmem == (flags / 4 % 2 == 1) && f.high == (flags / 8 % 2 == 1)
  {
    if ksec < |image| && image[ksec].Data? {
      var b, at := image[ksec].bytes, if Flag(e, A_PAL) then e[HDRLEN] else 0;
      Powers(b[at + 2]);
    }
  }

  lemma Powers(shift: nat)
    ensures 4 <= shift <= 16 ==>
              Pow2(shift) == [16, 32, 64, 128, 256, 512, 1024, 2048, 4096, 8192, 16384, 32768, 65536][shift - 4]
  {
    assert Pow2(4) == 16 && Pow2(5) == 32 && Pow2(6) == 64 && Pow2(7) == 128 && Pow2(8) == 256;
    assert Pow2(9) == 512 && Pow2(10) == 1024 && Pow2(11) == 2048 && Pow2(12) == 4096 && Pow2(13) == 8192;
    assert Pow2(14) == 16384 && Pow2(15) == 32768 && Pow2(16) == 65536;
  }

  datatype Block = Block(base: nat, size: nat)

  /** Every sector that can be taken for a header is a sane one. */
  predicate Proper(image: seq<Sector>) {
    Sectored(image) && forall v :: 0 <= v < |image| && image[v].Data? && Magic(image[v].bytes) ==> Sane(ExecOf(image[v].bytes))
  }

  predicate Magic(b: Bytes) {
    |b| == SECTOR_SIZE && b[IM_NAME_MAX + 1] == 1 && b[IM_NAME_MAX + 2] == 3
  }

  function ExecOf(b: Bytes): (e: Bytes)
    requires |b| == SECTOR_SIZE
    ensures |e| == EXEC
  {
    b[IM_NAME_MAX + 1..IM_NAME_MAX + 1 + EXEC]
  }

  /** A header in the image, and the sector behind it. */
  datatype Chosen = Chosen(at: nat, e: Bytes)

  /** The next program with a label that is selected: those before it are skipped. */
  function NextChosen(image: seq<Sector>, v: nat, selected: Bytes -> bool): (h: Option<Chosen>)
    requires Proper(image)
    ensures h.Some? ==> Sane(h.value.e) && v < h.value.at <= |image|
    decreases if v < |image| then |image| - v else 0
  {
    if v < |image| && image[v].Data? && Magic(image[v].bytes) then
      var e := ExecOf(image[v].bytes);
      if selected(image[v].bytes[..IM_NAME_MAX + 1]) then Some(Chosen(v + 1, e))
      else NextChosen(image, v + 1 + ProcSize(e), selected)
    else None
  }

  /** All the programs that are selected from sector v on. */
  function AllChosen(image: seq<Sector>, v: nat, imageSize: nat, selected: Bytes -> bool): (hs: Option<seq<Chosen>>)
    requires Proper(image)
    ensures hs.Some? ==> forall k :: 0 <= k < |hs.value| ==> Sane(hs.value[k].e)
    decreases imageSize - v
  {
    if v >= imageSize then Some([])
    else
      var h := NextChosen(image, v, selected);
      if h.None? then None
      else Before([h.value], AllChosen(image, h.value.at + ProcSize(h.value.e), imageSize, selected))
  }

  function Before(hs: seq<Chosen>, rest: Option<seq<Chosen>>): Option<seq<Chosen>> {
    if rest.None? then None else Some(hs + rest.value)
  }

  lemma BeforeMore(hs: seq<Chosen>, h: Chosen, rest: Option<seq<Chosen>>)
    ensures Before(hs, Before([h], rest)) == Before(hs + [h], rest)
  {
    if rest.Some? { assert hs + ([h] + rest.value) == hs + [h] + rest.value; }
  }

  lemma BeforeEnds(hs: seq<Chosen>, rest: Option<seq<Chosen>>)
    ensures Before([], rest) == rest && Before(hs, Some([])) == Some(hs)
  {
    if rest.Some? { assert [] + rest.value == rest.value; }
    assert hs + [] == hs;
  }

  method NextHeader(image: seq<Sector>, v0: nat, selected: Bytes -> bool) returns (ok: bool, v: nat, e: Bytes)
    requires Proper(image)
    ensures ok ==> NextChosen(image, v0, selected) == Some(Chosen(v, e))
    ensures !ok ==> NextChosen(image, v0, selected) == None
  {
    hide Sane, Magic, ProcSize;
    v := v0;
    while true
      invariant NextChosen(image, v, selected) == NextChosen(image, v0, selected)
      decreases if v < |image| then |image| - v else 0
    {
      e := [];
      if v >= |image| || image[v].Unreadable? { return false, v, e; }
      var buf := image[v].bytes;
      v := v + 1;
      if !Magic(buf) { return false, v, e; }
      e := ExecOf(buf);
      if selected(buf[..IM_NAME_MAX + 1]) { return true, v, e; }
      SaneIsHeader(e);
      v := v + ProcSize(e);
    }
  }

  lemma SaneIsHeader(e: Bytes)
    requires Sane(e)
    ensures IsHeader(e)
  {
  }

  /** low and high are mem[0] and mem[1]; low memory is used up to top. */
  datatype Memory = Memory(low: Block, top: nat, high: Block)

  /** Programs are put one right behind the other; with K_HIGH all but the kernel into extended memory. */
  function StartOf(ps: seq<Process>, k: nat, f: Features, c: nat, m: Memory): nat
    requires k <= |ps| && c > 0
  {
    if k == KERNEL then Up(m.low.base, c) else if k == KERNEL + 1 && f.high then m.high.base else ps[k - 1].end
  }

  function LimitOf(k: nat, f: Features, m: Memory): nat {
    if k > KERNEL && f.high then m.high.base + m.high.size else m.top
  }

  ghost predicate PutRight(image: seq<Sector>, hs: seq<Chosen>, ps: seq<Process>, f: Features, c: nat, m: Memory, k: nat)
    requires k < |hs| && k < |ps| && Sane(hs[k].e) && c > 0
  {
    var addr := StartOf(ps, k, f, c, m);
    ProcessFits(image, hs[k].at, hs[k].e, k, f, addr, LimitOf(k, f, m), c) && ps[k] == ProcessAt(hs[k].e, k, f, addr, c)
  }

  ghost predicate Placement(image: seq<Sector>, hs: seq<Chosen>, ps: seq<Process>, f: Features, c: nat, m: Memory) {
    && c > 0 && |ps| == |hs|
    && forall k :: 0 <= k < |hs| ==> Sane(hs[k].e) && PutRight(image, hs, ps, f, c, m, k)
  }

  /** The image can be loaded, and then these are the processes. */
  ghost predicate Loads(image: seq<Sector>, imageSize: nat, selected: Bytes -> bool, m: Memory, ps: seq<Process>, f: Features, c: nat)
    requires Proper(image)
  {
    var hs := AllChosen(image, 0, imageSize, selected);
    && hs.Some? && 0 < |hs.value| <= PROCESS_MAX
    && Declared(image, hs.value[KERNEL].at, hs.value[KERNEL].e) == Some((c, f))
    && Placement(image, hs.value, ps, f, c, m)
  }

  /** The program is in memory, between its start and its end and below the limit. */
  ghost predicate Stays(image: seq<Sector>, mem: Bytes, h: Chosen, p: Process, k: nat, f: Features, c: nat, limit: nat)
    requires Sectored(image) && IsClick(c) && IsHeader(h.e)
  {
    && Readable(image, h.at, TotalSectors(Parts(h.e)))
    && var end := p.start + |InMemory(image, h.at, h.e, k, f, c)|;
       end <= |mem| && end <= p.end && end <= limit && mem[p.start..end] == InMemory(image, h.at, h.e, k, f, c)
  }

  /** All programs are; the kernel too if low memory ends below the extended memory block. */
  ghost predicate AllStay(image: seq<Sector>, mem: Bytes, hs: seq<Chosen>, ps: seq<Process>, f: Features, c: nat, m: Memory)
    requires Sectored(image) && IsClick(c) && |ps| == |hs|
  {
    forall k :: 0 <= k < |hs| && (k == KERNEL && f.high ==> m.top <= m.high.base) ==>
      IsHeader(hs[k].e) && Stays(image, mem, hs[k], ps[k], k, f, c, LimitOf(k, f, m))
  }

  /** The next program goes to addr; the earlier ones are in memory. */
  ghost predicate Ready(image: seq<Sector>, mem: Bytes, hs: seq<Chosen>, ps: seq<Process>, f: Features, c: nat, m: Memory,
                        addr: nat, limit: nat)
    requires Sectored(image)
  {
    && IsClick(c) && 0 < c <= 0x1_0000 && 0x1_0000 % c == 0
    && Placement(image, hs, ps, f, c, m) && AllStay(image, mem, hs, ps, f, c, m)
    && addr == StartOf(ps, |ps|, f, c, m) && addr % c == 0 && limit == LimitOf(|ps|, f, m)
  }

  ghost predicate Kernel(image: seq<Sector>, h: Chosen, f: Features, c: nat)
    requires Sectored(image)
  {
    IsHeader(h.e) && Declared(image, h.at, h.e) == Some((c, f))
  }

  /** Nothing outside the two blocks has changed. */
  ghost predicate Framed(before: Bytes, mem: Bytes, m: Memory) {
    && |mem| == |before|
    && forall a :: 0 <= a < |mem| && !(m.low.base <= a < m.top) && !(m.high.base <= a < m.high.base + m.high.size) ==> mem[a] == before[a]
  }

  /** The loading loop of exec_image(): it succeeds exactly if the image can be loaded, and the programs are in memory
      then, each in its place.  Memory outside the two blocks does not change. */
  method LoadImage(image: seq<Sector>, imageSize: nat, selected: Bytes -> bool, m: Memory, mem: array<Byte>)
    returns (ok: bool, ps: seq<Process>, f: Features, c: nat)
    requires Proper(image)
    requires m.low.base <= m.top <= mem.Length && m.high.base + m.high.size <= mem.Length && m.high.base % 0x1_0000 == 0
    modifies mem
    ensures ok ==> Loads(image, imageSize, selected, m, ps, f, c)
    ensures !ok ==> forall ps', f', c' :: !Loads(image, imageSize, selected, m, ps', f', c')
    ensures ok ==> IsClick(c) && AllStay(image, mem[..], AllChosen(image, 0, imageSize, selected).value, ps, f, c, m)
    ensures Framed(old(mem[..]), mem[..], m)
  {
    hide Sane, IsHeader, NextChosen, ProcessFits, ProcessAt, Stays, IsClick, Up, PutRight, Framed, Placement, AllStay, InMemory, Placed, Declared;
    ok, ps, c := false, [], 1;
    f := Features(false, false, false);
    var v: nat, addr: nat, limit: nat := 0, m.low.base, m.top;
    ghost var hs: seq<Chosen> := [];
    FramedSame(mem[..], m);
    BeforeEnds([], AllChosen(image, 0, imageSize, selected));
    while v < imageSize
      invariant AllChosen(image, 0, imageSize, selected) == Before(hs, AllChosen(image, v, imageSize, selected))
      invariant |ps| == |hs| <= PROCESS_MAX
      invariant ps == [] ==> addr == m.low.base && limit == m.top
      invariant ps != [] ==> Kernel(image, hs[KERNEL], f, c) && Ready(image, mem[..], hs, ps, f, c, m, addr, limit)
      invariant Framed(old(mem[..]), mem[..], m)
      decreases imageSize - v
    {
      if |ps| == PROCESS_MAX { return; }
      var e, got, v', p, addr', limit';
      got, v, e := NextHeader(image, v, selected);
      if !got { return; }
      SaneIsHeader(e);
      BeforeMore(hs, Chosen(v, e), AllChosen(image, v + ProcSize(e), imageSize, selected));
      if ps == [] {
        var declared := Declared(image, v, e);
        if declared.None? { return; }
        c, f := declared.value.0, declared.value.1;
        UpBounds(addr, c);
        addr := Up(addr, c);
        FirstReady(image, mem[..], f, c, m);
      }
      got, v', p, addr', limit' := LoadNext(image, v, e, ps, f, addr, limit, c, m, mem, hs, old(mem[..]));
      if !got {
        NoLoad(image, imageSize, selected, m, hs, ps, f, c, Chosen(v, e));
        return;
      }
      hs := hs + [Chosen(v, e)];
      v, addr, limit := v', addr', limit';
      ps := ps + [p];
    }
    BeforeEnds(hs, None);
    ok := ps != [];
  }

  /** One turn of it: what is loaded, and where the next program goes. */
  method LoadNext(image: seq<Sector>, v0: nat, e: Bytes, ps: seq<Process>, f: Features, addr0: nat, limit0: nat, c: nat, m: Memory,
                  mem: array<Byte>, ghost hs: seq<Chosen>, ghost before: Bytes)
    returns (ok: bool, v: nat, p: Process, addr: nat, limit: nat)
    requires Sectored(image) && Sane(e) && Ready(image, mem[..], hs, ps, f, c, m, addr0, limit0)
    requires m.top <= mem.Length && m.high.base + m.high.size <= mem.Length && m.high.base % 0x1_0000 == 0
    requires Framed(before, mem[..], m)
    modifies mem
    ensures IsHeader(e) && (ok <==> ProcessFits(image, v0, e, |ps|, f, addr0, limit0, c))
    ensures ok ==> v == v0 + ProcSize(e) && Ready(image, mem[..], hs + [Chosen(v0, e)], ps + [p], f, c, m, addr, limit)
    ensures Framed(before, mem[..], m)
  {
    hide Sane, IsHeader, ProcessFits, ProcessAt, Stays, IsClick, Up, PutRight, Framed, Placement, AllStay, InMemory, Placed, ProcSize;
    SaneIsHeader(e);
    ghost var was := mem[..];
    ok, v, p := LoadProcess(image, v0, e, |ps|, f, addr0, limit0, c, mem);
    StartsInBlock(image, hs, ps, f, c, m, |ps|);
    FramedMore(before, was, mem[..], m, addr0, limit0, |ps|, f);
    addr, limit := p.end, limit0;
    if !ok { return; }
    StartsThere(e, |ps|, f, addr0, c);
    OneMoreLoaded(image, was, mem[..], hs, ps, f, c, m, Chosen(v0, e), p, addr0, limit0);
    if |ps| == KERNEL && f.high {
      addr, limit := m.high.base, m.high.base + m.high.size;
      HighAligned(m.high.base, c);
    }
  }

  /** Whoever places the same programs places them the same way. */
  lemma {:induction false} PlacementUnique(image: seq<Sector>, hs: seq<Chosen>, ps: seq<Process>, hs': seq<Chosen>, ps': seq<Process>,
                                           f: Features, c: nat, m: Memory, k: nat)
    requires Placement(image, hs, ps, f, c, m) && Placement(image, hs', ps', f, c, m) && hs <= hs' && k <= |hs|
    ensures ps[..k] == ps'[..k] && StartOf(ps, k, f, c, m) == StartOf(ps', k, f, c, m)
  {
    hide Sane, ProcessFits, ProcessAt;
    if k > 0 {
      PlacementUnique(image, hs, ps, hs', ps', f, c, m, k - 1);
      assert PutRight(image, hs, ps, f, c, m, k - 1) && PutRight(image, hs', ps', f, c, m, k - 1);
    }
  }

  lemma NoLoad(image: seq<Sector>, imageSize: nat, selected: Bytes -> bool, m: Memory, hs: seq<Chosen>, ps: seq<Process>,
               f: Features, c: nat, h: Chosen)
    requires Proper(image) && Sane(h.e) && Placement(image, hs, ps, f, c, m) && Kernel(image, (hs + [h])[KERNEL], f, c)
    requires AllChosen(image, 0, imageSize, selected).Some? ==> hs + [h] <= AllChosen(image, 0, imageSize, selected).value
    requires !ProcessFits(image, h.at, h.e, |ps|, f, StartOf(ps, |ps|, f, c, m), LimitOf(|ps|, f, m), c)
    ensures forall ps', f', c' :: !Loads(image, imageSize, selected, m, ps', f', c')
  {
    hide Sane, Declared, ProcessFits, Placement;
    forall ps', f', c'
      ensures !Loads(image, imageSize, selected, m, ps', f', c')
    {
      var all := AllChosen(image, 0, imageSize, selected);
      if all.Some? {
        assert all.value[KERNEL] == (hs + [h])[KERNEL];
        NoPlacement(image, all.value, ps', hs, ps, f, c, m, h);
      }
    }
  }

  lemma NoPlacement(image: seq<Sector>, all: seq<Chosen>, ps': seq<Process>, hs: seq<Chosen>, ps: seq<Process>,
                    f: Features, c: nat, m: Memory, h: Chosen)
    requires Sane(h.e) && Placement(image, hs, ps, f, c, m) && hs + [h] <= all
    requires !ProcessFits(image, h.at, h.e, |ps|, f, StartOf(ps, |ps|, f, c, m), LimitOf(|ps|, f, m), c)
    ensures !Placement(image, all, ps', f, c, m)
  {
    hide Sane, ProcessFits;
    assert all[|hs|] == h;
    if Placement(image, all, ps', f, c, m) {
      PlacementUnique(image, hs, ps, all, ps', f, c, m, |hs|);
    }
  }

  /** Main result on placement: no program starts before the end of an earlier one, unless one is in extended memory
      and the other is not. */
  lemma {:induction false} EndsBefore(image: seq<Sector>, hs: seq<Chosen>, ps: seq<Process>, f: Features, c: nat, m: Memory, i: nat, j: nat)
    requires Placement(image, hs, ps, f, c, m) && i < j <= |ps|
    ensures if i == KERNEL && f.high then m.high.base <= StartOf(ps, j, f, c, m) else ps[i].end <= StartOf(ps, j, f, c, m)
  {
    hide Sane, ProcessFits, Long, Flag;
    if j - 1 > i {
      EndsBefore(image, hs, ps, f, c, m, i, j - 1);
      assert PutRight(image, hs, ps, f, c, m, j - 1);
    }
  }

  lemma FirstReady(image: seq<Sector>, mem: Bytes, f: Features, c: nat, m: Memory)
    requires Sectored(image) && IsClick(c) && 0 < c <= 0x1_0000 && 0x1_0000 % c == 0
    ensures Ready(image, mem, [], [], f, c, m, Up(m.low.base, c), m.top)
  {
    UpBounds(m.low.base, c);
  }

  /** What LoadProcess has done. */
  ghost predicate Put(image: seq<Sector>, was: Bytes, mem: Bytes, h: Chosen, p: Process, i: nat, f: Features, c: nat, addr: nat, limit: nat)
    requires Sectored(image) && IsClick(c) && IsHeader(h.e)
  {
    && Readable(image, h.at, TotalSectors(Parts(h.e)))
    && var end := addr + |InMemory(image, h.at, h.e, i, f, c)|;
       end <= p.end && end <= limit && Placed(was, mem, addr, InMemory(image, h.at, h.e, i, f, c))
  }

  lemma OneMoreLoaded(image: seq<Sector>, was: Bytes, mem: Bytes, hs: seq<Chosen>, ps: seq<Process>, f: Features, c: nat, m: Memory,
                      h: Chosen, p: Process, addr: nat, limit: nat)
    requires Sectored(image) && Sane(h.e) && Ready(image, was, hs, ps, f, c, m, addr, limit)
    requires IsHeader(h.e) && ProcessFits(image, h.at, h.e, |ps|, f, addr, limit, c) && p == ProcessAt(h.e, |ps|, f, addr, c)
    requires Put(image, was, mem, h, p, |ps|, f, c, addr, limit) && p.start == addr
    ensures Placement(image, hs + [h], ps + [p], f, c, m) && AllStay(image, mem, hs + [h], ps + [p], f, c, m)
  {
    hide Sane, ProcessFits, ProcessAt, InMemory, IsClick, Placed, IsHeader, Stays, Put;
    var n := |ps|;
    forall k | 0 <= k < n + 1
      ensures Sane((hs + [h])[k].e) && PutRight(image, hs + [h], ps + [p], f, c, m, k)
    {
      if k < n { assert PutRight(image, hs, ps, f, c, m, k); }
    }
    forall k | 0 <= k < n + 1 && (k == KERNEL && f.high ==> m.top <= m.high.base)
      ensures IsHeader((hs + [h])[k].e) && Stays(image, mem, (hs + [h])[k], (ps + [p])[k], k, f, c, LimitOf(k, f, m))
    {
      if k < n {
        EndsBefore(image, hs, ps, f, c, m, k, n);
        StillStays(image, was, mem, hs[k], ps[k], k, LimitOf(k, f, m), h, p, n, addr, limit, f, c);
      } else {
        JustPut(image, was, mem, h, p, n, addr, limit, f, c);
      }
    }
  }

  lemma StillStays(image: seq<Sector>, was: Bytes, mem: Bytes, g: Chosen, q: Process, k: nat, below: nat,
                   h: Chosen, p: Process, n: nat, addr: nat, limit: nat, f: Features, c: nat)
    requires Sectored(image) && IsClick(c) && IsHeader(g.e) && Stays(image, was, g, q, k, f, c, below)
    requires IsHeader(h.e) && Put(image, was, mem, h, p, n, f, c, addr, limit) && (q.end <= addr || below <= addr)
    ensures Stays(image, mem, g, q, k, f, c, below)
  {
    hide InMemory, IsClick, IsHeader, Placed;
    PlacedFrame(was, mem, addr, InMemory(image, h.at, h.e, n, f, c));
    var end := q.start + |InMemory(image, g.at, g.e, k, f, c)|;
    assert mem[q.start..end] == was[q.start..end];
  }

  lemma JustPut(image: seq<Sector>, was: Bytes, mem: Bytes, h: Chosen, p: Process, n: nat, addr: nat, limit: nat, f: Features, c: nat)
    requires Sectored(image) && IsClick(c) && IsHeader(h.e) && Put(image, was, mem, h, p, n, f, c, addr, limit) && p.start == addr
    ensures Stays(image, mem, h, p, n, f, c, limit)
  {
    hide InMemory, IsClick, IsHeader, Placed;
    PlacedFrame(was, mem, addr, InMemory(image, h.at, h.e, n, f, c));
  }

  lemma {:induction false} StartsInBlock(image: seq<Sector>, hs: seq<Chosen>, ps: seq<Process>, f: Features, c: nat, m: Memory, k: nat)
    requires Placement(image, hs, ps, f, c, m) && k <= |ps|
    ensures (if k > KERNEL && f.high then m.high.base else m.low.base) <= StartOf(ps, k, f, c, m)
  {
    hide Sane, ProcessFits;
    if k == 0 {
      UpBounds(m.low.base, c);
    } else {
      StartsInBlock(image, hs, ps, f, c, m, k - 1);
      assert PutRight(image, hs, ps, f, c, m, k - 1);
    }
  }

  lemma StartsThere(e: Bytes, i: nat, f: Features, addr: nat, c: nat)
    requires Sane(e) && c > 0
    ensures ProcessAt(e, i, f, addr, c).start == addr
  {
  }

  lemma HighAligned(base: nat, c: nat)
    requires c > 0 && 0x1_0000 % c == 0 && base % 0x1_0000 == 0
    ensures base % c == 0
  {
    var q, r := base / 0x1_0000, 0x1_0000 / c;
    assert 0x1_0000 == r * c;
    assert base == q * 0x1_0000;
    MulAssoc(q, r, c);
    ModZero(q * r, c);
  }

  lemma FramedSame(mem: Bytes, m: Memory)
    ensures Framed(mem, mem, m)
  {
  }

  lemma FramedMore(before: Bytes, was: Bytes, mem: Bytes, m: Memory, addr: nat, limit: nat, n: nat, f: Features)
    requires Framed(before, was, m) && |mem| == |was| && limit == LimitOf(n, f, m)
    requires if n > KERNEL && f.high then m.high.base <= addr else m.low.base <= addr
    requires forall a :: 0 <= a < |mem| && !(addr <= a < limit) ==> mem[a] == was[a]
    ensures Framed(before, mem, m)
  {
  }

  predicate Apart(p: Process, q: Process) {
    p.end <= q.cs || q.end <= p.cs
  }

  /** Only program KERNEL of a K_HIGH image is in another block of memory than those behind it. */
  predicate SameBlock(i: nat, f: Features) {
    !(i == KERNEL && f.high)
  }

  predicate Empty(p: Process) {
    p.start == p.end
  }

  /** What the header says of the size of a program. */
  function Content(e: Bytes, i: nat, f: Features): nat
    requires Sane(e)
  {
    (if Flag(e, A_SEP) then TextLen(e) else 0) + LastSize(e) + BssOf(e, i, f) + StackOf(e, i, f)
  }

  /** Where a program starts and ends, as far as the header tells: it takes up whole clicks, none exactly if it has
      no content, and with A_UZP its range begins one click early. */
  lemma PlacedSize(image: seq<Sector>, hs: seq<Chosen>, ps: seq<Process>, f: Features, c: nat, m: Memory, k: nat)
    requires Placement(image, hs, ps, f, c, m) && k < |ps|
    ensures ps[k].start == StartOf(ps, k, f, c, m) <= ps[k].end && (ps[k].end - ps[k].start) % c == 0
    ensures Empty(ps[k]) <==> Content(hs[k].e, k, f) == 0
    ensures ps[k].uzp == Flag(hs[k].e, A_UZP) && ps[k].cs == ps[k].start - (if ps[k].uzp then c else 0)
  {
    hide Sane, ProcessFits, ProcessAt, Content, Long, Flag;
    assert PutRight(image, hs, ps, f, c, m, k);
    SizeAt(hs[k].e, k, f, StartOf(ps, k, f, c, m), c);
  }

  lemma SizeAt(e: Bytes, k: nat, f: Features, addr: nat, c: nat)
    requires Sane(e) && c > 0
    ensures var p := ProcessAt(e, k, f, addr, c);
            && p.start == addr <= p.end && (p.end - p.start) % c == 0 && (Empty(p) <==> Content(e, k, f) == 0)
            && p.uzp == Flag(e, A_UZP) && p.cs == p.start - (if p.uzp then c else 0)
  {
    hide Long, Flag, UpOf, BssOf, StackOf, LastSize;
    var a, b := if Flag(e, A_SEP) then TextLen(e) else 0, LastSize(e) + BssOf(e, k, f) + StackOf(e, k, f);
    UpOfWhole(a, c);
    UpOfWhole(b, c);
    AlignedSum(UpOf(a, c), UpOf(b, c), c);
  }

  lemma UpOfWhole(n: nat, c: nat)
    requires c > 0
    ensures UpOf(n, c) % c == 0 && (UpOf(n, c) == 0 <==> n == 0)
  {
    UpOfAligned(n, c);
  }

  /** Between the end of a program and the start of a later one of its block there are the programs between them:
      whole clicks, none exactly if all of these are empty. */
  lemma {:induction false} Between(image: seq<Sector>, hs: seq<Chosen>, ps: seq<Process>, f: Features, c: nat, m: Memory, i: nat, j: nat)
    requires Placement(image, hs, ps, f, c, m) && i < j < |ps| && SameBlock(i, f)
    ensures ps[i].end <= ps[j].start && (ps[j].start - ps[i].end) % c == 0
    ensures ps[i].end == ps[j].start <==> forall k :: i < k < j ==> Empty(ps[k])
  {
    hide PutRight, Empty;
    PlacedSize(image, hs, ps, f, c, m, j);
    if i + 1 == j {
      ModZero(0, c);
    } else {
      PlacedSize(image, hs, ps, f, c, m, j - 1);
      Between(image, hs, ps, f, c, m, i, j - 1);
      var p := ps[j - 1];
      AlignedSum(p.start - ps[i].end, p.end - p.start, c);
      assert Empty(p) <==> p.start == p.end by { EmptyIs(p); }
    }
  }

  lemma EmptyIs(p: Process)
    ensures Empty(p) <==> p.start == p.end
  {
  }

  /** Main result: two programs of one block occupy disjoint ranges [cs, end) exactly if the later one has no unmapped
      zero page, or there is a program with content between them, or there is nothing in them at all. */
  lemma ApartExactly(image: seq<Sector>, hs: seq<Chosen>, ps: seq<Process>, f: Features, c: nat, m: Memory, i: nat, j: nat)
    requires Placement(image, hs, ps, f, c, m) && i < j < |ps| && SameBlock(i, f)
    ensures Apart(ps[i], ps[j])
            <==> || !ps[j].uzp
                 || (exists k :: i < k < j && !Empty(ps[k]))
                 || (!ps[i].uzp && forall k :: i <= k <= j ==> Empty(ps[k]))
  {
    hide PutRight;
    PlacedSize(image, hs, ps, f, c, m, i);
    PlacedSize(image, hs, ps, f, c, m, j);
    Between(image, hs, ps, f, c, m, i, j);
    var gap := ps[j].start - ps[i].end;
    if gap > 0 { WholeClick(gap, c); }
  }

  lemma WholeClick(n: nat, c: nat)
    requires c > 0 && n > 0 && n % c == 0
    ensures c <= n
  {
  }

  /** Main result, as a caller can read it off the headers: if the programs of a block all have content, they are
      pairwise apart exactly if none of them but the first has A_UZP. */
  lemma BlockApartExactly(image: seq<Sector>, hs: seq<Chosen>, ps: seq<Process>, f: Features, c: nat, m: Memory, first: nat)
    requires Placement(image, hs, ps, f, c, m) && first == (if f.high then KERNEL + 1 else KERNEL)
    requires forall k :: first <= k < |hs| ==> Content(hs[k].e, k, f) > 0
    ensures (forall i, j :: first <= i < j < |ps| ==> Apart(ps[i], ps[j]))
            <==> forall k :: first < k < |hs| ==> !Flag(hs[k].e, A_UZP)
  {
    hide ProcessFits, Long, Flag, PutRight, Content, Apart;
    forall k | first <= k < |ps|
      ensures !Empty(ps[k]) && ps[k].uzp == Flag(hs[k].e, A_UZP)
    {
      PlacedSize(image, hs, ps, f, c, m, k);
    }
    forall i, j | first <= i < j < |ps|
      ensures Apart(ps[i], ps[j]) <==> !ps[j].uzp || exists k :: i < k < j && !Empty(ps[k])
    {
      ApartExactly(image, hs, ps, f, c, m, i, j);
    }
    if forall i, j :: first <= i < j < |ps| ==> Apart(ps[i], ps[j]) {
      forall k | first < k < |hs|
        ensures !Flag(hs[k].e, A_UZP)
      {
        assert Apart(ps[k - 1], ps[k]);
      }
    }
  }

  /** And so the programs of an image, where the kernel of a K_HIGH image ends a click below the extended block. */
  lemma ImageApartExactly(image: seq<Sector>, hs: seq<Chosen>, ps: seq<Process>, f: Features, c: nat, m: Memory)
    requires Placement(image, hs, ps, f, c, m) && (f.high && ps != [] ==> ps[KERNEL].end + c <= m.high.base)
    requires forall k :: 0 <= k < |hs| ==> Content(hs[k].e, k, f) > 0
    ensures (forall i, j :: 0 <= i < j < |ps| ==> Apart(ps[i], ps[j]))
            <==> forall k :: (if f.high then KERNEL + 1 else KERNEL) < k < |hs| ==> !Flag(hs[k].e, A_UZP)
  {
    hide ProcessFits, Long, Flag, PutRight, Content, Apart;
    BlockApartExactly(image, hs, ps, f, c, m, if f.high then KERNEL + 1 else KERNEL);
    if f.high {
      forall j | KERNEL < j < |ps|
        ensures Apart(ps[KERNEL], ps[j])
      {
        KernelApart(image, hs, ps, f, c, m, j);
      }
    }
  }

  lemma KernelApart(image: seq<Sector>, hs: seq<Chosen>, ps: seq<Process>, f: Features, c: nat, m: Memory, j: nat)
    requires Placement(image, hs, ps, f, c, m) && f.high && KERNEL < j < |ps| && ps[KERNEL].end + c <= m.high.base
    ensures Apart(ps[KERNEL], ps[j])
  {
    hide PutRight;
    EndsBefore(image, hs, ps, f, c, m, KERNEL, j);
    PlacedSize(image, hs, ps, f, c, m, j);
  }

  /** Corollary: a program without an unmapped zero page is apart from every earlier one of its block; and from the kernel
      of a K_HIGH image exactly if the two do not overlap, as when the kernel ends below the extended block. */
  lemma ProgramsApart(image: seq<Sector>, hs: seq<Chosen>, ps: seq<Process>, f: Features, c: nat, m: Memory, i: nat, j: nat)
    requires Placement(image, hs, ps, f, c, m) && i < j < |ps| && !ps[j].uzp
    ensures Apart(ps[i], ps[j]) <==> (SameBlock(i, f) || ps[i].end <= ps[j].start || ps[j].end <= ps[i].cs)
    ensures ps[KERNEL].end <= m.high.base ==> Apart(ps[i], ps[j])
  {
    hide Sane, ProcessFits, Long, Flag;
    EndsBefore(image, hs, ps, f, c, m, i, j);
    assert PutRight(image, hs, ps, f, c, m, i) && PutRight(image, hs, ps, f, c, m, j);
  }

  /** A program with an unmapped zero page claims the click below its start.  Its predecessor ends there, so the two are
      apart exactly if there is nothing in either of them and the predecessor claims no such click. */
  lemma ZeroPageOverlaps(image: seq<Sector>, hs: seq<Chosen>, ps: seq<Process>, f: Features, c: nat, m: Memory, i: nat)
    requires Placement(image, hs, ps, f, c, m) && 0 < i < |ps| && SameBlock(i - 1, f) && ps[i].uzp
    ensures ps[i - 1].end - ps[i].cs == c
    ensures Apart(ps[i - 1], ps[i]) <==> !ps[i - 1].uzp && Empty(ps[i - 1]) && Empty(ps[i])
  {
    hide PutRight;
    PlacedSize(image, hs, ps, f, c, m, i - 1);
    PlacedSize(image, hs, ps, f, c, m, i);
  }

  /** A header of a program of n bytes of bss and nothing else. */
  function BssOnly(flags: Byte, n: Byte): (e: Bytes)
    ensures |e| == EXEC
  {
    [1, 3, flags, 0, 32, 0, 0, 0] + Zeros(8) + [n, 0, 0, 0] + Zeros(4) + [n, 0, 0, 0] + Zeros(20)
  }

  lemma BssOnlyIs(flags: Byte, n: Byte)
    ensures var e := BssOnly(flags, n);
            && Sane(e) && Long(e, TEXT) == Long(e, DATA) == 0 && Long(e, BSS) == n && Long(e, TOTAL) == n
            && e[FLAGS] == flags && e[HDRLEN] == 32
  {
    var e := BssOnly(flags, n);
    assert e[0] == 1 && e[1] == 3 && e[FLAGS] == flags && e[HDRLEN] == 32;
    assert forall i :: 8 <= i < 16 ==> e[i] == 0;
    assert e[16] == n && e[17] == 0 && e[18] == 0 && e[19] == 0;
    assert e[24] == n && e[25] == 0 && e[26] == 0 && e[27] == 0;
  }

  /** Where such a program is placed, one click being 16 bytes. */
  lemma BssOnlyAt(flags: Byte, i: nat, addr: nat, f: Features, limit: nat)
    requires flags <= A_UZP && !f.claim && !f.chmem && addr + 16 <= limit
    ensures var e, down := BssOnly(flags, 16), if flags == A_UZP then 16 else 0;
            && Sane(e) && ProcessFits([], 1, e, i, f, addr, limit, 16)
            && ProcessAt(e, i, f, addr, 16) == Process(addr, addr - down, addr - down, addr, addr + 16, flags == A_UZP)
  {
    hide Long, BssOnly, Flag, UpOf, SectorsOf;
    BssOnlyIs(flags, 16);
    var e := BssOnly(flags, 16);
    NoFlags(e, flags);
    assert TextLen(e) == LastSize(e) == 0 && BssOf(e, i, f) == 16 && StackOf(e, i, f) == 0;
    assert UpOf(16, 16) == 16 && UpOf(0, 16) == 0 by { OneClick(); }
  }

  lemma NoFlags(e: Bytes, flags: Byte)
    requires |e| == EXEC && e[FLAGS] == flags <= A_UZP
    ensures !Flag(e, A_SEP) && !Flag(e, A_PAL) && (Flag(e, A_UZP) <==> flags == A_UZP)
  {
  }

  lemma OneClick()
    ensures UpOf(16, 16) == 16 && UpOf(0, 16) == 0
  {
  }

  /** Two programs of one click each, the second with A_UZP: both claim the click from 0 to 16. */
  lemma TwoProgramsOverlap()
    ensures exists image, hs, ps, f, m :: Placement(image, hs, ps, f, 16, m) && |ps| == 2 && !Apart(ps[0], ps[1])
  {
    hide Sane, ProcessFits, ProcessAt, BssOnly;
    var f, m := Features(false, false, false), Memory(Block(0, 64), 64, Block(0, 0));
    var hs := [Chosen(1, BssOnly(0, 16)), Chosen(1, BssOnly(A_UZP, 16))];
    BssOnlyAt(0, 0, 0, f, 64);
    BssOnlyAt(A_UZP, 1, 16, f, 64);
    var ps := [Process(0, 0, 0, 0, 16, false), Process(16, 0, 0, 16, 32, true)];
    assert PutRight([], hs, ps, f, 16, m, 0) && PutRight([], hs, ps, f, 16, m, 1);
    assert Placement([], hs, ps, f, 16, m);
  }
}
