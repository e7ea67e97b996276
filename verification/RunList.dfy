/** boot/installboot.c make_bootable(): the list of (address, count) runs that tells the boot block where the
    sectors of the secondary boot code are. */
module RunList {
  const BOOT_MAX: nat := 64

  datatype Run = Run(address: int, count: nat)

  /** The sectors of one run. */
  function Sectors(address: int, count: nat): (s: seq<int>)
    ensures |s| == count && forall i :: 0 <= i < count ==> s[i] == address + i
  {
    if count == 0 then [] else Sectors(address, count - 1) + [address + count - 1]
  }

  function Expand(runs: seq<Run>): seq<int> {
    if runs == [] then [] else Sectors(runs[0].address, runs[0].count) + Expand(runs[1..])
  }

  /** The runs are not empty and no two neighbours could be pasted together. */
  predicate Maximal(runs: seq<Run>) {
    && (forall i :: 0 <= i < |runs| ==> runs[i].count > 0)
    && (forall i :: 0 < i < |runs| ==> Broken(runs, i))
  }

  predicate Broken(runs: seq<Run>, i: int)
    requires 0 < i < |runs|
  {
    runs[i - 1].address + runs[i - 1].count != runs[i].address
  }

  /** The disk address of a sector of the boot code; block gives the disk block of each of its blocks. */
  function Address(block: int -> int, ratio: nat, sector: nat): int
    requires ratio > 0
  {
    block(sector / ratio) * ratio + sector % ratio
  }

  function Addresses(block: int -> int, ratio: nat, n: nat): (a: seq<int>)
    requires ratio > 0
    ensures |a| == n && forall i :: 0 <= i < n ==> a[i] == Address(block, ratio, i)
  {
    if n == 0 then [] else Addresses(block, ratio, n - 1) + [Address(block, ratio, n - 1)]
  }

  // ---------------------------------------------------------------- a run list is determined by its sectors

  lemma {:induction false} ExpandAppend(a: seq<Run>, b: seq<Run>)
    ensures Expand(a + b) == Expand(a) + Expand(b)
  {
    if a == [] {
      assert a + b == b;
    } else {
      assert (a + b)[1..] == a[1..] + b;
      ExpandAppend(a[1..], b);
    }
  }

  /** Where the first of maximal runs ends is where the addresses stop being consecutive. */
  lemma FirstRunEnds(runs: seq<Run>)
    requires Maximal(runs) && runs != []
    ensures |Expand(runs)| >= runs[0].count && forall i :: 0 <= i < runs[0].count ==> Expand(runs)[i] == runs[0].address + i
    ensures |Expand(runs)| > runs[0].count ==> |runs| > 1 && Expand(runs)[runs[0].count] != runs[0].address + runs[0].count
  {
    if |runs| > 1 {
      assert Broken(runs, 1);
      assert Expand(runs[1..]) == Sectors(runs[1].address, runs[1].count) + Expand(runs[1..][1..]);
    }
  }

  /** There is only one maximal run list for given addresses. */
  lemma {:induction false} RunsAreUnique(a: seq<Run>, b: seq<Run>)
    requires Maximal(a) && Maximal(b) && Expand(a) == Expand(b)
    ensures a == b
  {
    if a == [] || b == [] {
      if a != [] { FirstRunEnds(a); }
      if b != [] { FirstRunEnds(b); }
    } else {
      FirstRunEnds(a);
      FirstRunEnds(b);
      assert a[0].address == Expand(a)[0] == Expand(b)[0] == b[0].address;
      assert a[0] == b[0];
      var s := Sectors(a[0].address, a[0].count);
      assert Expand(a)[|s|..] == Expand(a[1..]) && Expand(b)[|s|..] == Expand(b[1..]);
      RestMaximal(a);
      RestMaximal(b);
      RunsAreUnique(a[1..], b[1..]);
      assert a == [a[0]] + a[1..] && b == [b[0]] + b[1..];
    }
  }

  lemma RestMaximal(a: seq<Run>)
    requires Maximal(a) && a != []
    ensures Maximal(a[1..])
  {
    forall i | 0 < i < |a[1..]|
      ensures Broken(a[1..], i)
    {
      assert Broken(a, i + 1);
    }
  }

  // ---------------------------------------------------------------- the program

  /** The blocks that the first n sectors touch. */
  function Touched(n: nat, ratio: nat): nat
    requires ratio > 0
  {
    if n == 0 then 0 else (n - 1) / ratio + 1
  }

  lemma DivStep(n: nat, r: nat)
    requires r > 0
    ensures n % r != 0 ==> n / r == (n - 1) / r && n % r == (n - 1) % r + 1
    ensures n % r == 0 && n > 0 ==> n / r == (n - 1) / r + 1
  {
    if n > 0 {
      var q, m := (n - 1) / r, (n - 1) % r;
      assert n - 1 == q * r + m;
      if m == r - 1 {
        DivIs(n, r, q + 1, 0);
      } else {
        DivIs(n, r, q, m + 1);
      }
    }
  }

  lemma DivIs(n: nat, r: nat, q: nat, m: nat)
    requires m < r && n == q * r + m
    ensures n / r == q && n % r == m
  {
    var d := n / r;
    assert n == d * r + n % r;
    if d < q { assert (d + 1) * r <= q * r by { Mono(d + 1, q, r); } }
    if q < d { assert (q + 1) * r <= d * r by { Mono(q + 1, d, r); } }
  }

  /** The sectors of a block of the boot code follow each other where that block is on the disk. */
  lemma AddressesExactly(block: int -> int, ratio: nat, n: nat, b: nat, k: nat)
    requires k < ratio && b * ratio + k < n
    ensures Addresses(block, ratio, n)[b * ratio + k] == block(b) * ratio + k
  {
    DivIs(b * ratio + k, ratio, b, k);
  }

  lemma Mono(a: nat, b: nat, c: nat)
    requires a <= b
    ensures a * c <= b * c
  {
  }

  lemma TouchedFew(n: nat, ratio: nat)
    requires ratio > 0 && n <= BOOT_MAX * ratio
    ensures Touched(n, ratio) <= BOOT_MAX
  {
    if n > 0 {
      var q := (n - 1) / ratio;
      assert n - 1 == q * ratio + (n - 1) % ratio;
      if q >= BOOT_MAX { Mono(BOOT_MAX, q, ratio); }
    }
  }

  /** Sectors of one block follow each other. */
  lemma SameBlock(block: int -> int, ratio: nat, n: nat)
    requires ratio > 0 && n > 0 && n % ratio != 0
    ensures Address(block, ratio, n) == Address(block, ratio, n - 1) + 1
    ensures Touched(n + 1, ratio) == Touched(n, ratio)
  {
    DivStep(n, ratio);
  }

  lemma NextBlock(ratio: nat, n: nat)
    requires ratio > 0 && n % ratio == 0
    ensures Touched(n + 1, ratio) == Touched(n, ratio) + 1
  {
    DivStep(n, ratio);
    if n == 0 { DivIs(0, ratio, 0, 0); }
  }

  datatype Outcome = Patched(runs: nat) | TooBig | Holes

  /** The runs recorded so far, the last one still growing. */
  ghost predicate Recorded(runs: seq<Run>, block: int -> int, ratio: nat, n: nat)
    requires ratio > 0
  {
    && Maximal(runs) && Expand(runs) == Addresses(block, ratio, n) && |runs| <= Touched(n, ratio)
    && (n > 0 ==> runs != [] && runs[|runs| - 1].address + runs[|runs| - 1].count == Address(block, ratio, n - 1) + 1)
  }

  lemma Longer(runs: seq<Run>, block: int -> int, ratio: nat, n: nat)
    requires ratio > 0 && Recorded(runs, block, ratio, n) && runs != []
    requires var last := runs[|runs| - 1]; last.address + last.count == Address(block, ratio, n)
    ensures var k := |runs| - 1; Recorded(runs[k := runs[k].(count := runs[k].count + 1)], block, ratio, n + 1)
  {
    var k := |runs| - 1;
    var grown := runs[k].(count := runs[k].count + 1);
    var after := runs[k := grown];
    assert runs == runs[..k] + [runs[k]] && after == runs[..k] + [grown];
    ExpandAppend(runs[..k], [runs[k]]);
    ExpandAppend(runs[..k], [grown]);
    ExpandOne(runs[k]);
    ExpandOne(grown);
    forall i | 0 < i < |after|
      ensures Broken(after, i)
    {
      assert Broken(runs, i);
    }
    if n % ratio != 0 { if n > 0 { SameBlock(block, ratio, n); } } else { NextBlock(ratio, n); }
  }

  lemma ExpandOne(r: Run)
    ensures Expand([r]) == Sectors(r.address, r.count)
  {
    assert [r][1..] == [];
  }

  lemma OneMore(runs: seq<Run>, block: int -> int, ratio: nat, n: nat)
    requires ratio > 0 && Recorded(runs, block, ratio, n)
    requires runs != [] ==> var last := runs[|runs| - 1]; last.address + last.count != Address(block, ratio, n)
    requires runs == [] ==> n == 0
    ensures Recorded(runs + [Run(Address(block, ratio, n), 1)], block, ratio, n + 1)
  {
    var r := Run(Address(block, ratio, n), 1);
    var after := runs + [r];
    ExpandAppend(runs, [r]);
    ExpandOne(r);
    assert Sectors(r.address, 1) == [r.address];
    forall i | 0 < i < |after|
      ensures Broken(after, i)
    {
      if i < |runs| { assert Broken(runs, i); }
    }
    if n > 0 && n % ratio != 0 { SameBlock(block, ratio, n); }
    if n == 0 { DivIs(0, ratio, 0, 0); }
    NextBlock(ratio, n);
  }

  /** The loop that pastes sectors together.  installed says that the code is in the file system, where block 0
      is a hole.  bootaddr is the array of BOOT_MAX + 1 runs; one place is left for the count of 0 at the end. */
  method RecordRuns(block: int -> int, ratio: nat, maxSector: nat, installed: bool, bootaddr: array<Run>) returns (r: Outcome)
    requires bootaddr.Length == BOOT_MAX + 1 && maxSector > 0
    modifies bootaddr
    ensures r == TooBig <==> maxSector > BOOT_MAX * ratio
    ensures r == Holes <==> maxSector <= BOOT_MAX * ratio && installed && exists s: nat :: s < maxSector && ratio > 0 && block(s / ratio) == 0
    ensures r.Patched? ==> 1 <= r.runs <= BOOT_MAX && ratio > 0
                           && Expand(bootaddr[..r.runs]) == Addresses(block, ratio, maxSector)
                           && Maximal(bootaddr[..r.runs]) && bootaddr[r.runs].count == 0
  {
    hide Recorded, Maximal, Expand, Addresses;
    if maxSector > BOOT_MAX * ratio { return TooBig; }
    RatioPositive(maxSector, ratio);
    TouchedFew(maxSector, ratio);
    var bap := 0;
    bootaddr[0] := Run(0, 0);
    ghost var runs: seq<Run> := [];
    NothingRecorded(block, ratio);
    var sector := 0;
    while sector < maxSector
      invariant 0 <= sector <= maxSector && 0 <= bap < BOOT_MAX + 1
      invariant Recorded(runs, block, ratio, sector)
      invariant if sector == 0 then bap == 0 && runs == [] && bootaddr[0].count == 0
                else |runs| == bap + 1 <= BOOT_MAX && runs == bootaddr[..bap + 1] && bootaddr[bap].count > 0
      invariant installed ==> forall s: nat :: s < sector ==> block(s / ratio) != 0
    {
      var blk := block(sector / ratio);
      if installed && blk == 0 { return Holes; }
      var addr := blk * ratio + sector % ratio;
      if bootaddr[bap].count == 0 { bootaddr[bap] := bootaddr[bap].(address := addr); }
      RecordedShort(runs, block, ratio, sector, maxSector);
      if bootaddr[bap].address + bootaddr[bap].count == addr {
        bootaddr[bap] := bootaddr[bap].(count := bootaddr[bap].count + 1);
        if sector == 0 {
          OneMore(runs, block, ratio, 0);
          runs := [Run(addr, 1)];
          assert [] + [Run(addr, 1)] == runs;
        } else {
          Longer(runs, block, ratio, sector);
          runs := runs[bap := bootaddr[bap]];
        }
        assert runs == bootaddr[..bap + 1];
      } else {
        OneMore(runs, block, ratio, sector);
        runs := runs + [Run(addr, 1)];
        RecordedShort(runs, block, ratio, sector + 1, maxSector);
        bap := bap + 1;
        bootaddr[bap] := Run(addr, 1);
        assert runs == bootaddr[..bap + 1];
      }
      sector := sector + 1;
      CountPositive(runs, block, ratio, sector);
    }
    RecordedAll(runs, block, ratio, maxSector);
    bap := bap + 1;
    bootaddr[bap] := bootaddr[bap].(count := 0);
    assert bootaddr[..bap] == runs;
    return Patched(bap);
  }

  lemma RatioPositive(n: nat, ratio: nat)
    requires 0 < n <= BOOT_MAX * ratio
    ensures ratio > 0
  {
  }

  lemma NothingRecorded(block: int -> int, ratio: nat)
    requires ratio > 0
    ensures Recorded([], block, ratio, 0)
  {
  }

  lemma RecordedShort(runs: seq<Run>, block: int -> int, ratio: nat, n: nat, most: nat)
    requires ratio > 0 && Recorded(runs, block, ratio, n) && n <= most && Touched(most, ratio) <= BOOT_MAX
    ensures |runs| <= BOOT_MAX
    ensures n > 0 ==> runs != []
  {
    TouchedMore(n, most, ratio);
  }

  lemma TouchedMore(n: nat, m: nat, ratio: nat)
    requires ratio > 0 && n <= m
    ensures Touched(n, ratio) <= Touched(m, ratio)
  {
    if n > 0 {
      var a, b := (n - 1) / ratio, (m - 1) / ratio;
      assert n - 1 == a * ratio + (n - 1) % ratio && m - 1 == b * ratio + (m - 1) % ratio;
      if b < a { Mono(b + 1, a, ratio); }
    }
  }

  lemma CountPositive(runs: seq<Run>, block: int -> int, ratio: nat, n: nat)
    requires ratio > 0 && n > 0 && Recorded(runs, block, ratio, n)
    ensures runs != [] && runs[|runs| - 1].count > 0
  {
  }

  lemma RecordedAll(runs: seq<Run>, block: int -> int, ratio: nat, n: nat)
    requires ratio > 0 && Recorded(runs, block, ratio, n)
    ensures Maximal(runs) && Expand(runs) == Addresses(block, ratio, n)
  {
  }
}
