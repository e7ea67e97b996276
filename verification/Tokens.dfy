/** The token buckets of the VM scheduler: kernel/clock.c with the start-up values of kernel/main.c and the
    start of a VM in kernel/system/do_vmmreq.c. */
module Tokens {
  const VM0 := 0
  const NR_VMS := 4
  const MAXTOKENS := 256
  const TICKS_TO_SWITCH := 8
  const VM_FREE := 0
  const VM_LOADED := 1
  const VM_RUNNING := 2

  /** tokens, bsize and flags of every VM; active is VM_bitmap. */
  datatype Vms = Vms(tokens: seq<int>, bsize: seq<int>, flags: seq<int>, active: set<int>, nextVm: int, switchVm: int)

  predicate Guest(g: int) {
    VM0 < g < NR_VMS
  }

  ghost predicate WF(s: Vms) {
    && |s.tokens| == |s.bsize| == |s.flags| == NR_VMS
    && 0 <= s.nextVm < NR_VMS
    && (forall v :: v in s.active ==> 0 <= v < NR_VMS)
  }

  function Sum(t: seq<int>): int {
    if t == [] then 0 else t[0] + Sum(t[1..])
  }

  lemma {:induction false} SumUpdate(t: seq<int>, i: nat, n: int)
    requires i < |t|
    ensures Sum(t[i := n]) == Sum(t) - t[i] + n
  {
    var u := t[i := n];
    if i == 0 {
      assert u[1..] == t[1..];
    } else {
      SumUpdate(t[1..], i - 1, n);
      assert u[1..] == t[1..][i - 1 := n];
    }
  }

  lemma {:induction false} SumZero(t: seq<int>)
    requires forall i :: 0 <= i < |t| ==> t[i] >= 0
    ensures Sum(t) >= 0 && (Sum(t) == 0 <==> forall i :: 0 <= i < |t| ==> t[i] == 0)
  {
    if t != [] {
      SumZero(t[1..]);
      assert forall i :: 1 <= i < |t| ==> t[i] == t[1..][i - 1];
    }
  }

  lemma {:induction false} SumMonotone(t: seq<int>, u: seq<int>)
    requires |t| == |u| && forall i :: 0 <= i < |t| ==> t[i] <= u[i]
    ensures Sum(t) <= Sum(u)
  {
    if t != [] {
      SumMonotone(t[1..], u[1..]);
    }
  }

  // ---------------------------------------------------------------- specification of the steps

  /** The VM i places after v in the circle of guests; VM0 stands just before the first. */
  function Nth(v: nat, i: nat): nat
    requires v < NR_VMS && i < NR_VMS
  {
    if v + i < NR_VMS then v + i else v + i - (NR_VMS - 1)
  }

  /** An active guest other than the current next VM that has tokens. */
  predicate Candidate(s: Vms, g: int)
    requires WF(s)
  {
    Guest(g) && g in s.active && g != s.nextVm && s.tokens[g] > 0
  }

  /** The first candidate i or more places after the current next VM, VM0 if there is none. */
  function Search(s: Vms, i: nat): (g: int)
    requires WF(s) && 1 <= i <= NR_VMS
    ensures g == VM0 || Candidate(s, g)
    decreases NR_VMS - i
  {
    if i == NR_VMS then VM0
    else if Candidate(s, Nth(s.nextVm, i)) then Nth(s.nextVm, i)
    else Search(s, i + 1)
  }

  function Min(a: int, b: int): int {
    if a < b then a else b
  }

  function Rotated(s: Vms): (r: Vms)
    requires WF(s)
    ensures WF(r)
  {
    if s.switchVm > 0 then s
    else
      var g := Search(s, 1);
      s.(nextVm := g, switchVm := if g == VM0 then TICKS_TO_SWITCH else Min(s.tokens[g], TICKS_TO_SWITCH))
  }

  /** The refill loop from guest g on. */
  function RefillFrom(s: Vms, g: nat): (r: Vms)
    requires WF(s) && 1 <= g <= NR_VMS
    ensures WF(r)
    decreases NR_VMS - g
  {
    if g == NR_VMS then s
    else if s.flags[g] == VM_RUNNING then
      RefillFrom(s.(tokens := s.tokens[g := s.bsize[g]][VM0 := s.tokens[VM0] - s.bsize[g]]), g + 1)
    else RefillFrom(s, g + 1)
  }

  function Refilled(s: Vms): (r: Vms)
    requires WF(s)
    ensures WF(r)
  {
    if s.tokens[VM0] == MAXTOKENS then RefillFrom(s, 1) else s
  }

  /** The token half of do_clocktick(). */
  function Ticked(s: Vms): (r: Vms)
    requires WF(s)
    ensures WF(r)
  {
    Refilled(Rotated(s))
  }

  /** The token half of clock_handler(): one token of the running VM goes back to VM0. */
  function Charged(s: Vms, vm: nat): (r: Vms)
    requires WF(s) && vm < NR_VMS
    ensures WF(r)
  {
    var t := if s.tokens[vm] > 0 then s.tokens[vm := s.tokens[vm] - 1] else s.tokens;
    s.(tokens := if s.tokens[vm] > 0 then t[VM0 := t[VM0] + 1] else t,
       switchVm := if vm == s.nextVm then s.switchVm - 1 else s.switchVm)
  }

  /** do_vm_start() */
  function Started(s: Vms, g: nat, size: int): (r: Vms)
    requires WF(s) && Guest(g)
    ensures WF(r)
  {
    s.(flags := s.flags[g := VM_LOADED + VM_RUNNING],
       bsize := s.bsize[g := size],
       tokens := s.tokens[g := 0][VM0 := MAXTOKENS],
       active := s.active + {g},
       nextVm := if s.nextVm == VM0 then g else s.nextVm,
       switchVm := if s.nextVm == VM0 then TICKS_TO_SWITCH else s.switchVm)
  }

  /** do_vm_load() */
  function Loaded(s: Vms, g: nat): (r: Vms)
    requires WF(s) && Guest(g)
    ensures WF(r)
  {
    s.(flags := s.flags[g := VM_LOADED])
  }

  const BOOT := Vms([MAXTOKENS, 0, 0, 0], [MAXTOKENS, 0, 0, 0], [VM_LOADED + VM_RUNNING, VM_FREE, VM_FREE, VM_FREE],
                    {VM0}, VM0, TICKS_TO_SWITCH)

  // ---------------------------------------------------------------- the program

  class Clock {
    var tokens: seq<int>
    var bsize: seq<int>
    var flags: seq<int>
    var active: set<int>
    var nextVm: int
    var switchVm: int

    function Abs(): Vms
      reads this
    {
      Vms(tokens, bsize, flags, active, nextVm, switchVm)
    }

    /** main() */
    constructor ()
      ensures Abs() == BOOT && WF(Abs())
    {
      tokens := [MAXTOKENS, 0, 0, 0];
      bsize := [MAXTOKENS, 0, 0, 0];
      flags := [VM_LOADED + VM_RUNNING, VM_FREE, VM_FREE, VM_FREE];
      active := {VM0};
      nextVm := VM0;
      switchVm := TICKS_TO_SWITCH;
    }

    /** clock_handler(); vm is that of the interrupted process. */
    method Charge(vm: nat)
      requires WF(Abs()) && vm < NR_VMS
      modifies this
      ensures WF(Abs()) && Abs() == Charged(old(Abs()), vm)
    {
      if tokens[vm] > 0 {
        tokens := tokens[vm := tokens[vm] - 1];
        tokens := tokens[VM0 := tokens[VM0] + 1];
      }
      if vm == nextVm { switchVm := switchVm - 1; }
    }

    /** The circular search of do_clocktick().  It ends, for every VM_bitmap whose bits are VM numbers. */
    method Rotate()
      requires WF(Abs())
      modifies this`nextVm, this`switchVm
      ensures WF(Abs()) && Abs() == Rotated(old(Abs()))
    {
      hide Candidate, Search, Nth, Left;
      if switchVm > 0 { return; }
      ghost var s := Abs();
      var bm := active - {VM0, nextVm};
      var nx := nextVm;
      ghost var i := 0;
      LeftAtFirst(s, bm);
      while bm != {}
        invariant nextVm == s.nextVm && switchVm == s.switchVm
        invariant 0 <= i < NR_VMS && nx == Nth(s.nextVm, i) && Left(s, bm, i)
        invariant Search(s, 1) == Search(s, i + 1)
        decreases NR_VMS - i
      {
        LeftOneOn(s, bm, i);
        nx := if nx == NR_VMS - 1 then VM0 + 1 else nx + 1;
        i := i + 1;
        if nx in bm {
          if tokens[nx] > 0 {
            nextVm := nx;
            switchVm := Min(tokens[nx], TICKS_TO_SWITCH);
            return;
          }
          bm := bm - {nx};
        }
      }
      NobodyLeft(s, i);
      nextVm := VM0;
      switchVm := TICKS_TO_SWITCH;
    }

    /** The refill of do_clocktick(). */
    method Refill()
      requires WF(Abs())
      modifies this`tokens
      ensures WF(Abs()) && Abs() == Refilled(old(Abs()))
    {
      if tokens[VM0] == MAXTOKENS {
        var g := VM0 + 1;
        while g < NR_VMS
          invariant 1 <= g <= NR_VMS && WF(Abs())
          invariant RefillFrom(Abs(), g) == RefillFrom(old(Abs()), 1)
        {
          if flags[g] == VM_RUNNING {
            tokens := tokens[g := bsize[g]];
            tokens := tokens[VM0 := tokens[VM0] - tokens[g]];
          }
          g := g + 1;
        }
      }
    }

    /** do_clocktick() */
    method Tick()
      requires WF(Abs())
      modifies this
      ensures WF(Abs()) && Abs() == Ticked(old(Abs()))
    {
      Rotate();
      Refill();
    }

    /** do_vm_start() */
    method Start(g: nat, size: int)
      requires WF(Abs()) && Guest(g)
      modifies this
      ensures WF(Abs()) && Abs() == Started(old(Abs()), g, size)
    {
      flags := flags[g := VM_LOADED + VM_RUNNING];
      bsize := bsize[g := size];
      tokens := tokens[g := 0];
      tokens := tokens[VM0 := MAXTOKENS];
      active := active + {g};
      if nextVm == VM0 {
        nextVm := g;
        switchVm := TICKS_TO_SWITCH;
      }
    }
  }

  /** Going round from v, guest g comes after place i. */
  predicate Ahead(v: nat, g: int, i: nat)
    requires v < NR_VMS
  {
    Guest(g) && i < Distance(v, g) < NR_VMS
  }

  /** How many places after v guest g stands. */
  function Distance(v: nat, g: int): (i: int)
    requires v < NR_VMS && Guest(g)
    ensures 0 <= i < NR_VMS && Nth(v, i) == g
    ensures v > VM0 ==> i < NR_VMS - 1
  {
    if v <= g then g - v else g - v + (NR_VMS - 1)
  }

  lemma DistanceOnly(v: nat, g: int, i: nat)
    requires v < NR_VMS && Guest(g) && 1 <= i < NR_VMS && Nth(v, i) == g && g != v
    ensures Distance(v, g) == i
  {
  }

  /** bm holds the guests beyond place i that may still be candidates, and all that are. */
  ghost predicate Left(s: Vms, bm: set<int>, i: nat)
    requires WF(s)
  {
    && (forall g :: g in bm ==> g in s.active && g != s.nextVm && Ahead(s.nextVm, g, i))
    && (forall g :: Candidate(s, g) && Ahead(s.nextVm, g, i) ==> g in bm)
  }

  lemma LeftAtFirst(s: Vms, bm: set<int>)
    requires WF(s) && bm == s.active - {VM0, s.nextVm}
    ensures Left(s, bm, 0) && Nth(s.nextVm, 0) == s.nextVm
  {
  }

  /** One place further on: the guest there is the pick, or it drops out. */
  lemma LeftOneOn(s: Vms, bm: set<int>, i: nat)
    requires WF(s) && bm != {} && Left(s, bm, i) && i < NR_VMS
    ensures i + 1 < NR_VMS
    ensures var g := Nth(s.nextVm, i + 1);
            && g == (if Nth(s.nextVm, i) == NR_VMS - 1 then VM0 + 1 else Nth(s.nextVm, i) + 1)
            && (g in bm && s.tokens[g] > 0 ==> Search(s, i + 1) == g && Guest(g))
            && (!(g in bm && s.tokens[g] > 0) ==> Search(s, i + 1) == Search(s, i + 2) && Left(s, bm - {g}, i + 1))
            && (g !in bm ==> bm - {g} == bm) && (g in bm ==> Guest(g))
  {
    var m := Member(bm);
    assert Ahead(s.nextVm, m, i);
    var g := Nth(s.nextVm, i + 1);
    if Guest(g) && g != s.nextVm { DistanceOnly(s.nextVm, g, i + 1); }
    forall v | v in bm - {g}
      ensures Ahead(s.nextVm, v, i + 1)
    {
      assert Ahead(s.nextVm, v, i) && Nth(s.nextVm, Distance(s.nextVm, v)) == v;
    }
  }

  lemma NobodyLeft(s: Vms, i: nat)
    requires WF(s) && i < NR_VMS && Left(s, {}, i)
    ensures Search(s, i + 1) == VM0
  {
    NobodyAhead(s, i);
  }

  lemma Member<T>(s: set<T>) returns (x: T)
    requires s != {}
    ensures x in s
  {
    x :| x in s;
  }

  /** No candidate stands beyond place i: the search finds none from there on. */
  lemma {:induction false} NobodyAhead(s: Vms, i: nat)
    requires WF(s) && i < NR_VMS && forall g :: Candidate(s, g) ==> !Ahead(s.nextVm, g, i)
    ensures Search(s, i + 1) == VM0
    decreases NR_VMS - i
  {
    if i + 1 < NR_VMS {
      if Candidate(s, Nth(s.nextVm, i + 1)) { DistanceOnly(s.nextVm, Nth(s.nextVm, i + 1), i + 1); }
      NobodyAhead(s, i + 1);
    }
  }

  // ---------------------------------------------------------------- rotation

  lemma {:induction false} SearchExactly(s: Vms, i: nat, g: int)
    requires WF(s) && 1 <= i <= NR_VMS && Candidate(s, g) && Distance(s.nextVm, g) >= i
    ensures var n := Search(s, i); Candidate(s, n) && i <= Distance(s.nextVm, n) <= Distance(s.nextVm, g)
    decreases NR_VMS - i
  {
    if i < NR_VMS {
      var n := Nth(s.nextVm, i);
      if Candidate(s, n) {
        DistanceOnly(s.nextVm, n, i);
      } else {
        SearchExactly(s, i + 1, g);
      }
    }
  }

  /** Main result: a rotation picks, of the active guests with tokens other than the current next VM, the one that stands
      nearest after it, and VM0 exactly when there is none; the counter starts again with the tokens of the guest
      picked, but at most TICKS_TO_SWITCH, which VM0 always gets. */
  lemma RotationExactly(s: Vms, n: int)
    requires WF(s) && s.switchVm <= 0
    ensures Guest(n) ==> (Rotated(s).nextVm == n
              <==> n in s.active && s.tokens[n] > 0 && n != s.nextVm
                   && forall g :: Guest(g) && g in s.active && s.tokens[g] > 0 && g != s.nextVm ==> Distance(s.nextVm, n) <= Distance(s.nextVm, g))
    ensures Rotated(s).nextVm == VM0 <==> forall g :: Guest(g) && g in s.active && g != s.nextVm ==> s.tokens[g] <= 0
    ensures Rotated(s).switchVm == if Rotated(s).nextVm == VM0 || s.tokens[Rotated(s).nextVm] > TICKS_TO_SWITCH then TICKS_TO_SWITCH
                                   else s.tokens[Rotated(s).nextVm]
    ensures 1 <= Rotated(s).switchVm <= TICKS_TO_SWITCH && 0 <= Rotated(s).nextVm < NR_VMS
    ensures Rotated(s) == s.(nextVm := Rotated(s).nextVm, switchVm := Rotated(s).switchVm)
  {
    forall g | Candidate(s, g)
      ensures Candidate(s, Search(s, 1)) && Distance(s.nextVm, Search(s, 1)) <= Distance(s.nextVm, g)
    {
      SearchExactly(s, 1, g);
    }
  }

  /** The guest with the next higher number is the nearest, and behind the last one the first. */
  lemma NextInLine(s: Vms)
    requires WF(s) && s.switchVm <= 0
    ensures var n := if s.nextVm == NR_VMS - 1 then VM0 + 1 else s.nextVm + 1;
            n in s.active && s.tokens[n] > 0 && n != s.nextVm ==> Rotated(s).nextVm == n
  {
    var n := if s.nextVm == NR_VMS - 1 then VM0 + 1 else s.nextVm + 1;
    if Candidate(s, n) { SearchExactly(s, 1, n); }
  }

  /** The counter that a run leaves after do_clocktick() is between 1 and TICKS_TO_SWITCH, if it was never more. */
  lemma TickRestartsCounter(s: Vms)
    requires WF(s) && s.switchVm <= TICKS_TO_SWITCH
    ensures 1 <= Ticked(s).switchVm <= TICKS_TO_SWITCH
  {
    RefillLeavesRest(Rotated(s), 1);
    if s.switchVm <= 0 { RotationExactly(s, VM0); }
  }

  /** A tick rotates if the counter has run out, and refills exactly if VM0 holds all the tokens: then the guests whose
      flags are VM_RUNNING alone get their buckets filled, and nobody else gets anything. */
  lemma TickExactly(s: Vms)
    requires WF(s)
    ensures var r := Ticked(s);
            && r.nextVm == Rotated(s).nextVm && r.switchVm == Rotated(s).switchVm
            && r.bsize == s.bsize && r.flags == s.flags && r.active == s.active
            && (s.switchVm > 0 ==> r.nextVm == s.nextVm && r.switchVm == s.switchVm)
            && (s.tokens[VM0] != MAXTOKENS ==> r.tokens == s.tokens)
            && (s.tokens[VM0] == MAXTOKENS ==>
                  forall g :: Guest(g) ==> r.tokens[g] == if s.flags[g] == VM_RUNNING then s.bsize[g] else s.tokens[g])
  {
    RefillLeavesRest(Rotated(s), 1);
    forall g | Guest(g)
      ensures RefillFrom(Rotated(s), 1).tokens[g] == if s.flags[g] == VM_RUNNING then s.bsize[g] else s.tokens[g]
    {
      RefillReachesExactly(Rotated(s), 1, g);
    }
  }

  /** A charge takes a token from the VM that runs, if it has one, to VM0, and counts down if that VM is the next one. */
  lemma ChargeExactly(s: Vms, vm: nat)
    requires WF(s) && vm < NR_VMS
    ensures var r := Charged(s, vm);
            && r.switchVm == (if vm == s.nextVm then s.switchVm - 1 else s.switchVm) && r.nextVm == s.nextVm
            && r.bsize == s.bsize && r.flags == s.flags && r.active == s.active
            && (vm != VM0 && s.tokens[vm] > 0 ==> r.tokens[vm] == s.tokens[vm] - 1 && r.tokens[VM0] == s.tokens[VM0] + 1)
            && (vm == VM0 || s.tokens[vm] <= 0 ==> r.tokens == s.tokens)
            && forall v :: 0 <= v < NR_VMS && v != vm && v != VM0 ==> r.tokens[v] == s.tokens[v]
  {
  }

  /** A VM that is started is active and running, with the bucket asked for and no tokens; VM0 gets them all.  It is the
      next VM if VM0 was. */
  lemma StartExactly(s: Vms, g: nat, size: int)
    requires WF(s) && Guest(g)
    ensures var r := Started(s, g, size);
            && g in r.active && r.flags[g] == VM_LOADED + VM_RUNNING && r.bsize[g] == size && r.tokens[g] == 0
            && r.tokens[VM0] == MAXTOKENS && r.active == s.active + {g}
            && (s.nextVm == VM0 ==> r.nextVm == g && r.switchVm == TICKS_TO_SWITCH)
            && (s.nextVm != VM0 ==> r.nextVm == s.nextVm && r.switchVm == s.switchVm)
            && forall v :: Guest(v) && v != g ==> r.tokens[v] == s.tokens[v] && r.bsize[v] == s.bsize[v] && r.flags[v] == s.flags[v]
  {
  }

  lemma {:induction false} RefillLeavesRest(s: Vms, g: nat)
    requires WF(s) && 1 <= g <= NR_VMS
    ensures RefillFrom(s, g) == s.(tokens := RefillFrom(s, g).tokens)
    decreases NR_VMS - g
  {
    if g < NR_VMS {
      RefillLeavesRest(s.(tokens := s.tokens[g := s.bsize[g]][VM0 := s.tokens[VM0] - s.bsize[g]]), g + 1);
      RefillLeavesRest(s, g + 1);
    }
  }

  /** The states in which a sequence of rotations happens; in between anything may have changed but the next VM. */
  ghost predicate Rotations(at: seq<Vms>) {
    && (forall k :: 0 <= k < |at| ==> WF(at[k]) && at[k].switchVm <= 0)
    && (forall k :: 0 <= k < |at| - 1 ==> at[k + 1].nextVm == Rotated(at[k]).nextVm)
  }

  /** Each rotation that does not pick g brings the next VM closer to it. */
  lemma {:induction false} TurnComes(at: seq<Vms>, g: int, k: nat)
    requires Rotations(at) && Guest(g) && k < |at| && at[k].nextVm != g
    requires forall j :: 0 <= j < |at| ==> g in at[j].active && at[j].tokens[g] > 0
    requires Distance(at[k].nextVm, g) <= |at| - k
    ensures exists j :: k <= j < |at| && Rotated(at[j]).nextVm == g
    decreases |at| - k
  {
    var s := at[k];
    SearchExactly(s, 1, g);
    var n := Rotated(s).nextVm;
    if n != g {
      Closer(s.nextVm, n, g);
      assert at[k + 1].nextVm == n;
      TurnComes(at, g, k + 1);
    }
  }

  lemma Closer(v: nat, n: nat, g: int)
    requires v < NR_VMS && Guest(n) && Guest(g) && v != g && v != n && n != g && Distance(v, n) <= Distance(v, g)
    ensures Distance(n, g) < Distance(v, g) && Distance(n, g) >= 1
  {
  }

  /** Main result: a guest that stays active with tokens becomes the next VM within NR_VMS - 1 rotations; if it
      is the next VM already, it comes round again within NR_VMS. */
  lemma GuestGetsItsTurn(at: seq<Vms>, g: int)
    requires Rotations(at) && Guest(g) && at != []
    requires forall k :: 0 <= k < |at| ==> g in at[k].active && at[k].tokens[g] > 0
    requires |at| == if at[0].nextVm == g then NR_VMS else NR_VMS - 1
    ensures exists k :: 0 <= k < |at| && Rotated(at[k]).nextVm == g
  {
    if at[0].nextVm == g {
      assert at[1].nextVm == Rotated(at[0]).nextVm;
      TurnComes(at, g, 1);
    } else {
      TurnComes(at, g, 0);
    }
  }

  // ---------------------------------------------------------------- conservation

  ghost predicate GuestOk(s: Vms, g: int)
    requires WF(s) && 0 <= g < NR_VMS
  {
    Guest(g) ==> 0 <= s.tokens[g] <= s.bsize[g]
  }

  /** The tokens of all VMs sum to MAXTOKENS and no guest has more than its bucket holds, or less than none. */
  ghost predicate Conserved(s: Vms) {
    && WF(s) && Sum(s.tokens) == MAXTOKENS
    && forall g :: 0 <= g < NR_VMS ==> GuestOk(s, g)
  }

  /** VM0 holds every token iff every guest is at zero. */
  lemma Vm0HoldsAllExactly(s: Vms)
    requires Conserved(s)
    ensures s.tokens[VM0] == MAXTOKENS <==> forall g :: Guest(g) ==> s.tokens[g] == 0
    ensures s.tokens[VM0] <= MAXTOKENS
  {
    var guests := s.tokens[VM0 := 0];
    forall g | 0 <= g < |guests|
      ensures guests[g] >= 0
    {
      assert GuestOk(s, g);
    }
    SumUpdate(s.tokens, VM0, 0);
    SumZero(guests);
    assert (forall g :: 0 <= g < |guests| ==> guests[g] == 0) <==> (forall g :: Guest(g) ==> s.tokens[g] == 0) by {
      forall g | Guest(g)
        ensures guests[g] == s.tokens[g]
      {
      }
    }
  }

  /** VM0 is not negative either, if the bucket sizes of the guests sum to at most MAXTOKENS. */
  lemma Vm0NotNegative(s: Vms)
    requires Conserved(s) && Sum(s.bsize[VM0 := 0]) <= MAXTOKENS
    ensures s.tokens[VM0] >= 0
  {
    var guests, sizes := s.tokens[VM0 := 0], s.bsize[VM0 := 0];
    forall g | 0 <= g < |guests|
      ensures guests[g] <= sizes[g]
    {
      assert GuestOk(s, g);
    }
    SumUpdate(s.tokens, VM0, 0);
    SumMonotone(guests, sizes);
  }

  lemma ChargeConserves(s: Vms, vm: nat)
    requires Conserved(s) && vm < NR_VMS
    ensures Conserved(Charged(s, vm))
  {
    var r := Charged(s, vm);
    if s.tokens[vm] > 0 {
      var t := s.tokens[vm := s.tokens[vm] - 1];
      SumUpdate(s.tokens, vm, s.tokens[vm] - 1);
      SumUpdate(t, VM0, t[VM0] + 1);
    }
    forall g | 0 <= g < NR_VMS
      ensures GuestOk(r, g)
    {
      assert GuestOk(s, g);
    }
  }

  lemma {:induction false} RefillFromConserves(s: Vms, g: nat)
    requires Conserved(s) && 1 <= g <= NR_VMS
    requires forall v :: g <= v < NR_VMS ==> s.tokens[v] == 0
    ensures Conserved(RefillFrom(s, g))
    decreases NR_VMS - g
  {
    if g < NR_VMS {
      if s.flags[g] == VM_RUNNING {
        FillConserves(s, g);
        RefillFromConserves(s.(tokens := s.tokens[g := s.bsize[g]][VM0 := s.tokens[VM0] - s.bsize[g]]), g + 1);
      } else {
        RefillFromConserves(s, g + 1);
      }
    }
  }

  lemma FillConserves(s: Vms, g: nat)
    requires Conserved(s) && Guest(g) && s.tokens[g] == 0
    ensures Conserved(s.(tokens := s.tokens[g := s.bsize[g]][VM0 := s.tokens[VM0] - s.bsize[g]]))
  {
    var t := s.tokens[g := s.bsize[g]];
    var r := s.(tokens := t[VM0 := s.tokens[VM0] - s.bsize[g]]);
    SumUpdate(s.tokens, g, s.bsize[g]);
    SumUpdate(t, VM0, s.tokens[VM0] - s.bsize[g]);
    forall v | 0 <= v < NR_VMS
      ensures GuestOk(r, v)
    {
      assert GuestOk(s, v) && GuestOk(s, g);
    }
  }

  lemma TickConserves(s: Vms)
    requires Conserved(s)
    ensures Conserved(Ticked(s))
  {
    var r := Rotated(s);
    forall v | 0 <= v < NR_VMS
      ensures GuestOk(r, v)
    {
      assert GuestOk(s, v);
    }
    Vm0HoldsAllExactly(r);
    if r.tokens[VM0] == MAXTOKENS { RefillFromConserves(r, 1); }
  }

  /** Starting a VM puts MAXTOKENS back to VM0 whatever the others hold: that conserves the tokens iff every
      other guest is at zero. */
  lemma StartConservesExactly(s: Vms, g: nat, size: nat)
    requires Conserved(s) && Guest(g)
    ensures Conserved(Started(s, g, size)) <==> forall v :: Guest(v) && v != g ==> s.tokens[v] == 0
  {
    var r := Started(s, g, size);
    var t := s.tokens[g := 0];
    SumUpdate(s.tokens, g, 0);
    SumUpdate(t, VM0, MAXTOKENS);
    var rest := t[VM0 := 0];
    SumUpdate(t, VM0, 0);
    forall v | 0 <= v < NR_VMS
      ensures rest[v] >= 0 && GuestOk(r, v)
    {
      assert GuestOk(s, v);
    }
    SumZero(rest);
    assert Sum(r.tokens) == MAXTOKENS + Sum(rest);
    assert (forall v :: 0 <= v < |rest| ==> rest[v] == 0) <==> (forall v :: Guest(v) && v != g ==> s.tokens[v] == 0) by {
      forall v | Guest(v) && v != g
        ensures rest[v] == s.tokens[v]
      {
      }
    }
  }

  /** When another VM starts while a guest has one token left, the sum grows.  (BootConserves says that no run from boot
      gets there.) */
  lemma StartCreatesTokens()
    ensures exists s: Vms, g: nat, size: nat :: Conserved(s) && Guest(g) && Sum(Started(s, g, size).tokens) > MAXTOKENS
  {
    var s := Vms([255, 1, 0, 0], [256, 8, 0, 0], [3, 3, 1, 0], {0, 1}, 1, 8);
    assert Sum([255, 1, 0, 0]) == 256 by {
      assert [255, 1, 0, 0][1..] == [1, 0, 0] && [1, 0, 0][1..] == [0, 0] && [0, 0][1..] == [0] && Sum([0]) == 0;
    }
    assert forall g :: 0 <= g < NR_VMS ==> GuestOk(s, g);
    StartConservesExactly(s, 2, 8);
    SumUpdate(s.tokens, 2, 0);
    SumUpdate(s.tokens[2 := 0], VM0, MAXTOKENS);
    assert Sum(Started(s, 2, 8).tokens) == 257;
  }

  // ---------------------------------------------------------------- runs

  datatype Step = Charge(vm: nat) | Tick | Load(g: nat) | Start(g: nat, size: nat)

  /** A VM is loaded into a free slot and started once it is loaded; the caller of do_vm_start sees to it that
      no guest holds tokens then. */
  ghost predicate Enabled(s: Vms, step: Step)
    requires WF(s)
  {
    match step
    case Charge(vm) => vm < NR_VMS
    case Tick => true
    case Load(g) => Guest(g) && s.flags[g] == VM_FREE
    case Start(g, _) => Guest(g) && s.flags[g] == VM_LOADED
  }

  function After(s: Vms, step: Step): (r: Vms)
    requires WF(s) && (step.Charge? ==> step.vm < NR_VMS) && (step.Load? || step.Start? ==> Guest(step.g))
    ensures WF(r)
  {
    match step
    case Charge(vm) => Charged(s, vm)
    case Tick => Ticked(s)
    case Load(g) => Loaded(s, g)
    case Start(g, size) => Started(s, g, size)
  }

  ghost predicate IsRun(states: seq<Vms>, steps: seq<Step>) {
    && |states| == |steps| + 1
    && (forall i :: 0 <= i < |states| ==> WF(states[i]))
    && (forall i :: 0 <= i < |steps| ==> Enabled(states[i], steps[i]) && states[i + 1] == After(states[i], steps[i]))
  }

  /** Nobody but the VM that is started holds tokens. */
  ghost predicate Quiet(s: Vms, step: Step)
    requires WF(s)
  {
    step.Start? ==> forall v :: Guest(v) && v != step.g ==> s.tokens[v] == 0
  }

  /** Main result: along every run in which VMs are started while no other guest holds tokens, the tokens sum to
      MAXTOKENS and no guest's are negative. */
  lemma {:induction false} TokensAreConserved(states: seq<Vms>, steps: seq<Step>, i: nat)
    requires IsRun(states, steps) && Conserved(states[0]) && i < |states|
    requires forall k :: 0 <= k < |steps| ==> Quiet(states[k], steps[k])
    ensures Conserved(states[i])
  {
    if i > 0 {
      TokensAreConserved(states, steps, i - 1);
      var s := states[i - 1];
      assert Quiet(s, steps[i - 1]);
      match steps[i - 1]
      case Charge(vm) => ChargeConserves(s, vm);
      case Tick => TickConserves(s);
      case Load(g) =>
        forall v | 0 <= v < NR_VMS
          ensures GuestOk(Loaded(s, g), v)
        {
          assert GuestOk(s, v);
        }
      case Start(g, size) => StartConservesExactly(s, g, size);
    }
  }

  /** Clock interrupts that cost guest g a token. */
  function TokenTicks(states: seq<Vms>, steps: seq<Step>, g: int): (n: nat)
    requires |states| > |steps| && Guest(g) && forall i :: 0 <= i < |states| ==> WF(states[i])
  {
    if steps == [] then 0
    else
      assert WF(states[0]);
      (if steps[0] == Charge(g) && states[0].tokens[g] > 0 then 1 else 0) + TokenTicks(states[1..], steps[1..], g)
  }

  /** A tick that refills nothing, because VM0 does not hold every token. */
  ghost predicate NoRefill(s: Vms, step: Step)
    requires WF(s)
  {
    step.Charge? || (step.Tick? && s.tokens[VM0] != MAXTOKENS) || step.Load?
  }

  /** Main result: between two refills a guest is charged exactly what it has less at the end, so never more
      than it had after the first; and that is at most its bucket size. */
  lemma {:induction false} ChargedAtMostBucket(states: seq<Vms>, steps: seq<Step>, g: int)
    requires IsRun(states, steps) && Guest(g) && Conserved(states[0])
    requires forall k :: 0 <= k < |steps| ==> NoRefill(states[k], steps[k])
    ensures TokenTicks(states, steps, g) == states[0].tokens[g] - states[|steps|].tokens[g]
    ensures TokenTicks(states, steps, g) <= states[0].tokens[g] <= states[0].bsize[g]
  {
    assert GuestOk(states[0], g);
    if steps != [] {
      assert NoRefill(states[0], steps[0]);
      var s := states[0];
      match steps[0] {
        case Charge(vm) => ChargeConserves(s, vm);
        case Tick => TickConserves(s);
        case Load(v) =>
          forall w | 0 <= w < NR_VMS
            ensures GuestOk(Loaded(s, v), w)
          {
            assert GuestOk(s, w);
          }
        case Start(_, _) =>
      }
      assert states[1] == After(s, steps[0]);
      forall k | 0 <= k < |steps[1..]|
        ensures NoRefill(states[1..][k], steps[1..][k])
        ensures Enabled(states[1..][k], steps[1..][k]) && states[1..][k + 1] == After(states[1..][k], steps[1..][k])
      {
        assert NoRefill(states[k + 1], steps[k + 1]);
      }
      ChargedAtMostBucket(states[1..], steps[1..], g);
    }
  }

  // ---------------------------------------------------------------- what really happens from boot

  /** No guest has the flags that the refill asks for, and none has a token. */
  ghost predicate Starved(s: Vms) {
    && WF(s) && s.tokens[VM0] == MAXTOKENS
    && forall g :: 0 <= g < NR_VMS ==> StarvedAt(s, g)
  }

  ghost predicate StarvedAt(s: Vms, g: int)
    requires WF(s) && 0 <= g < NR_VMS
  {
    Guest(g) ==> s.tokens[g] == 0 && s.flags[g] != VM_RUNNING
  }

  lemma {:induction false} StarvedRefill(s: Vms, g: nat)
    requires Starved(s) && 1 <= g <= NR_VMS
    ensures RefillFrom(s, g) == s
    decreases NR_VMS - g
  {
    if g < NR_VMS {
      assert StarvedAt(s, g);
      StarvedRefill(s, g + 1);
    }
  }

  /** Charging VM0, which is the only VM with tokens, gives the token back to it. */
  lemma StarvedStep(s: Vms, step: Step)
    requires Starved(s) && Enabled(s, step)
    ensures Starved(After(s, step))
  {
    var r := After(s, step);
    match step {
      case Charge(vm) => assert StarvedAt(s, vm);
      case Tick =>
        var t := Rotated(s);
        forall g | 0 <= g < NR_VMS
          ensures StarvedAt(t, g)
        {
          assert StarvedAt(s, g);
        }
        StarvedRefill(t, 1);
      case Load(g) =>
      case Start(g, size) =>
    }
    forall g | 0 <= g < NR_VMS
      ensures StarvedAt(r, g)
    {
      assert StarvedAt(s, g);
    }
  }

  /** The refill asks for flags equal to VM_RUNNING, but a started VM is VM_LOADED as well: from boot on, in
      every state of every run, every guest has no tokens. */
  lemma {:induction false} GuestsNeverGetTokens(states: seq<Vms>, steps: seq<Step>, i: nat, g: int)
    requires IsRun(states, steps) && states[0] == BOOT && i < |states| && Guest(g)
    ensures states[i].tokens[g] == 0 && states[i].tokens[VM0] == MAXTOKENS
  {
    AlwaysStarved(states, steps, i);
    assert StarvedAt(states[i], g);
  }

  /** So every run from boot conserves the tokens, whatever VMs are started and when. */
  lemma BootConserves(states: seq<Vms>, steps: seq<Step>, i: nat)
    requires IsRun(states, steps) && states[0] == BOOT && i < |states|
    ensures Conserved(states[i])
  {
    assert Conserved(BOOT) by {
      SumUpdate([0, 0, 0, 0], VM0, MAXTOKENS);
      SumZero([0, 0, 0, 0]);
      assert [0, 0, 0, 0][VM0 := MAXTOKENS] == BOOT.tokens;
    }
    forall k | 0 <= k < |steps|
      ensures Quiet(states[k], steps[k])
    {
      forall v | Guest(v)
        ensures states[k].tokens[v] == 0
      {
        GuestsNeverGetTokens(states, steps, k, v);
      }
    }
    TokensAreConserved(states, steps, i);
  }

  lemma {:induction false} AlwaysStarved(states: seq<Vms>, steps: seq<Step>, i: nat)
    requires IsRun(states, steps) && states[0] == BOOT && i < |states|
    ensures Starved(states[i])
  {
    if i > 0 {
      AlwaysStarved(states, steps, i - 1);
      StarvedStep(states[i - 1], steps[i - 1]);
    } else {
      assert forall g :: 0 <= g < NR_VMS ==> StarvedAt(BOOT, g);
    }
  }

  /** A refill reaches exactly the guests whose flags are VM_RUNNING alone. */
  lemma {:induction false} RefillReachesExactly(s: Vms, g: nat, v: int)
    requires WF(s) && 1 <= g <= NR_VMS && Guest(v)
    ensures RefillFrom(s, g).tokens[v] == if v >= g && s.flags[v] == VM_RUNNING then s.bsize[v] else s.tokens[v]
    decreases NR_VMS - g
  {
    if g < NR_VMS {
      RefillReachesExactly(s.(tokens := s.tokens[g := s.bsize[g]][VM0 := s.tokens[VM0] - s.bsize[g]]), g + 1, v);
      RefillReachesExactly(s, g + 1, v);
    }
  }

  // ---------------------------------------------------------------- the counter, over runs

  /** The steps that give the processor's next turn to another VM: a tick that finds the counter run out, and the start
      of a VM while VM0 is next. */
  predicate Switches(s: Vms, step: Step) {
    (step.Tick? && s.switchVm <= 0) || (step.Start? && s.nextVm == VM0)
  }

  /** The VM that is next is charged. */
  predicate Pays(s: Vms, step: Step) {
    step.Charge? && step.vm == s.nextVm
  }

  /** How often, from step lo to step hi, the VM that is next at that time is charged. */
  function NextCharges(states: seq<Vms>, steps: seq<Step>, lo: nat, hi: nat): nat
    requires lo <= hi <= |steps| < |states|
    decreases hi - lo
  {
    if lo == hi then 0
    else NextCharges(states, steps, lo, hi - 1) + if Pays(states[hi - 1], steps[hi - 1]) then 1 else 0
  }

  /** Main result on the counter: as long as nothing switches, the next VM stays, and the counter falls by exactly the
      charges of the next VM. */
  lemma {:induction false} CounterFalls(states: seq<Vms>, steps: seq<Step>, lo: nat, hi: nat)
    requires IsRun(states, steps) && lo <= hi <= |steps|
    requires forall k :: lo <= k < hi ==> !Switches(states[k], steps[k])
    ensures states[hi].nextVm == states[lo].nextVm
    ensures states[hi].switchVm == states[lo].switchVm - NextCharges(states, steps, lo, hi)
    decreases hi - lo
  {
    hide After, Enabled, WF;
    if lo < hi {
      CounterFalls(states, steps, lo, hi - 1);
      StepCounts(states[hi - 1], steps[hi - 1]);
    }
  }

  lemma StepCounts(s: Vms, step: Step)
    requires WF(s) && Enabled(s, step)
    ensures var r := After(s, step);
            !Switches(s, step) ==>
              r.nextVm == s.nextVm && r.switchVm == s.switchVm - if Pays(s, step) then 1 else 0
  {
    if step.Tick? { TickExactly(s); }
  }

  lemma {:induction false} CounterBounded(states: seq<Vms>, steps: seq<Step>, i: nat)
    requires IsRun(states, steps) && states[0].switchVm <= TICKS_TO_SWITCH && i < |states|
    ensures states[i].switchVm <= TICKS_TO_SWITCH
  {
    if i > 0 {
      CounterBounded(states, steps, i - 1);
      var s := states[i - 1];
      if steps[i - 1].Tick? { TickRestartsCounter(s); } else { StepCounts(s, steps[i - 1]); }
    }
  }

  /** TICKS_TO_SWITCH charges of the VMs that are next, and then a tick. */
  predicate Round(states: seq<Vms>, steps: seq<Step>, lo: nat, hi: nat)
    requires |steps| < |states|
  {
    lo < hi <= |steps| && steps[hi - 1].Tick? && NextCharges(states, steps, lo, hi - 1) >= TICKS_TO_SWITCH
  }

  /** Main result: in every round there is a switch. */
  lemma RoundSwitches(states: seq<Vms>, steps: seq<Step>, lo: nat, hi: nat)
    requires IsRun(states, steps) && states[0].switchVm <= TICKS_TO_SWITCH && Round(states, steps, lo, hi)
    ensures exists k :: lo <= k < hi && Switches(states[k], steps[k])
  {
    if forall k :: lo <= k < hi - 1 ==> !Switches(states[k], steps[k]) {
      CounterFalls(states, steps, lo, hi - 1);
      CounterBounded(states, steps, lo);
      assert Switches(states[hi - 1], steps[hi - 1]);
    }
  }

  /** How many switches guest g is away from being next, at most. */
  function Away(s: Vms, g: int): nat
    requires WF(s) && Guest(g)
  {
    if s.nextVm == g then 0 else if s.nextVm == VM0 then NR_VMS - 1 else Distance(s.nextVm, g)
  }

  /** No step takes a guest that stays ready further away, and every switch brings it nearer. */
  lemma StepNearer(s: Vms, step: Step, g: int)
    requires WF(s) && Enabled(s, step) && Guest(g) && g in s.active && s.tokens[g] > 0 && s.nextVm != g
    ensures var r := After(s, step); Away(r, g) <= Away(s, g) && (Switches(s, step) ==> Away(r, g) < Away(s, g))
  {
    if Switches(s, step) {
      if step.Tick? {
        TickExactly(s);
        SearchExactly(s, 1, g);
        RotationExactly(s, g);
        var n := Rotated(s).nextVm;
        if n != g { Closer(s.nextVm, n, g); }
      }
    } else {
      StepCounts(s, step);
    }
  }

  lemma {:induction false} Nearer(states: seq<Vms>, steps: seq<Step>, g: int, lo: nat, hi: nat)
    requires IsRun(states, steps) && Guest(g) && lo <= hi <= |steps|
    requires forall k :: lo <= k <= hi ==> g in states[k].active && states[k].tokens[g] > 0 && states[k].nextVm != g
    ensures Away(states[hi], g) <= Away(states[lo], g)
    ensures (exists k :: lo <= k < hi && Switches(states[k], steps[k])) ==> Away(states[hi], g) < Away(states[lo], g)
    decreases hi - lo
  {
    if lo < hi {
      Nearer(states, steps, g, lo, hi - 1);
      StepNearer(states[hi - 1], steps[hi - 1], g);
    }
  }

  /** Main result on fairness, over runs: a guest that stays active with tokens is the next VM at some time within NR_VMS - 1
      rounds, that is within as many times TICKS_TO_SWITCH charges of the VMs before it and as many ticks. */
  lemma GuestComesNext(states: seq<Vms>, steps: seq<Step>, cuts: seq<nat>, g: int)
    requires IsRun(states, steps) && states[0].switchVm <= TICKS_TO_SWITCH && Guest(g)
    requires |cuts| == NR_VMS && forall i :: 0 <= i < NR_VMS - 1 ==> Round(states, steps, cuts[i], cuts[i + 1])
    requires forall k :: cuts[0] <= k <= cuts[NR_VMS - 1] ==> StaysReady(states, g, k)
    ensures exists k :: cuts[0] <= k <= cuts[NR_VMS - 1] && k < |states| && states[k].nextVm == g
  {
    Rounds(states, steps, cuts, g, NR_VMS - 1);
    assert StaysReady(states, g, cuts[0]) && StaysReady(states, g, cuts[NR_VMS - 1]);
    assert Away(states[cuts[NR_VMS - 1]], g) == 0 ==> states[cuts[NR_VMS - 1]].nextVm == g;
  }

  predicate StaysReady(states: seq<Vms>, g: int, k: nat) {
    k < |states| && g in states[k].active && |states[k].tokens| == NR_VMS && Guest(g) && states[k].tokens[g] > 0
  }

  /** Each round in which the guest does not become next brings it nearer. */
  lemma {:induction false} Rounds(states: seq<Vms>, steps: seq<Step>, cuts: seq<nat>, g: int, m: nat)
    requires IsRun(states, steps) && states[0].switchVm <= TICKS_TO_SWITCH && Guest(g) && m < |cuts|
    requires forall i :: 0 <= i < m ==> Round(states, steps, cuts[i], cuts[i + 1])
    requires forall k :: cuts[0] <= k <= cuts[m] ==> StaysReady(states, g, k)
    ensures cuts[0] <= cuts[m] < |states|
    ensures || (exists k :: cuts[0] <= k <= cuts[m] && states[k].nextVm == g)
            || Away(states[cuts[m]], g) + m <= Away(states[cuts[0]], g)
  {
    if m == 0 {
      assert StaysReady(states, g, cuts[0]);
    } else {
      assert Round(states, steps, cuts[m - 1], cuts[m]);
      Rounds(states, steps, cuts, g, m - 1);
      if forall k :: cuts[m - 1] <= k <= cuts[m] ==> states[k].nextVm != g {
        RoundSwitches(states, steps, cuts[m - 1], cuts[m]);
        forall k | cuts[m - 1] <= k <= cuts[m]
          ensures g in states[k].active && states[k].tokens[g] > 0
        {
          assert StaysReady(states, g, k);
        }
        Nearer(states, steps, g, cuts[m - 1], cuts[m]);
      }
    }
  }

  /** From boot: eight charges of VM0 and a tick rotate. */
  lemma BootRotates(states: seq<Vms>, steps: seq<Step>)
    requires IsRun(states, steps) && states[0] == BOOT && |steps| == TICKS_TO_SWITCH + 1
    requires (forall k :: 0 <= k < TICKS_TO_SWITCH ==> steps[k] == Charge(VM0)) && steps[TICKS_TO_SWITCH] == Tick
    ensures states[TICKS_TO_SWITCH].switchVm == 0 && Switches(states[TICKS_TO_SWITCH], Tick)
  {
    OnlyVm0(states, steps, TICKS_TO_SWITCH);
    CounterFalls(states, steps, 0, TICKS_TO_SWITCH);
  }

  lemma {:induction false} OnlyVm0(states: seq<Vms>, steps: seq<Step>, n: nat)
    requires IsRun(states, steps) && states[0].nextVm == VM0 && n <= |steps|
    requires forall k :: 0 <= k < n ==> steps[k] == Charge(VM0)
    ensures states[n].nextVm == VM0 && NextCharges(states, steps, 0, n) == n
  {
    if n > 0 {
      OnlyVm0(states, steps, n - 1);
      StepCounts(states[n - 1], steps[n - 1]);
    }
  }
}
