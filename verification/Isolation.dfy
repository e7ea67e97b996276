/** kernel/system.c: mapping virtual addresses and the checks on copies between address spaces. */
module Isolation {
  import opened Ipc

  const M32: nat := 0x1_0000_0000
  const CLICK: nat := 4096
  const T := 0
  const D := 1
  const SEGMENT_TYPES: nat := 256
  const LOCAL_SEG: nat := 0
  const REMOTE_SEG: nat := 1
  const BIOS_SEG: nat := 2
  const PHYS_SEG: nat := 4
  const NR_REMOTE_SEGS := 3
  const BIOS_MEM_BEGIN: nat := 0
  const BIOS_MEM_END: nat := 0x4FF
  const BASE_MEM_TOP: nat := 0x90000
  const UPPER_MEM_END: nat := 0xFFFFF
  const RUNNING: nat := 3

  /** An unsigned 32-bit machine word. */
  type Word = x: int | 0 <= x < 0x1_0000_0000 witness 0

  function U32(n: int): Word {
    n % M32
  }

  /** struct mem_map, in clicks */
  datatype Seg = Seg(phys: Word, vir: Word, len: Word)

  /** struct far_mem */
  datatype Far = Far(inUse: bool, phys: Word, len: Word)

  datatype Maps = Maps(text: Seg, data: Seg, stack: Seg, far: seq<Far>)

  /** vm_flags, vm_start, vm_end */
  datatype VmMem = VmMem(flags: nat, start: Word, end: Word)

  datatype Machine = Machine(st: State, maps: seq<Maps>, vms: seq<VmMem>)

  /** struct vir_addr and struct vir_addr_vm */
  datatype VirAddr = VirAddr(vm: int, ep: int, segment: nat, offset: Word)

  /** A side of a copy: the descriptor whose memory it is, the process number the caller named, the address. */
  datatype Side = Side(slot: Option<nat>, nr: int, phys: Word) | Bad(e: Errno)

  datatype Outcome = Copied(src: Side, dst: Side) | Denied(e: Errno)

  ghost predicate MachineWF(m: Machine) {
    && WF(m.st) && |m.maps| == |m.st.proc| && |m.vms| == NR_VMS
    && (forall x :: 0 <= x < |m.maps| ==> |m.maps[x].far| == NR_REMOTE_SEGS)
    && (forall x :: 0 <= x < |m.st.proc| ==> IsOkProcN(m.st.proc[x].nr))
  }

  // ---------------------------------------------------------------- mapping

  /** The segment umap_local settles for: D may really be S, T is T. */
  function Chosen(map_: Maps, seg: int, vir: Word, bytes: Word): Seg {
    if seg == T then map_.text
    else if (vir + bytes - 1) / CLICK < U32(map_.data.vir + map_.data.len) then map_.data
    else map_.stack
  }

  function MapSegment(s: Seg, vir: Word, bytes: Word): Word {
    if vir / CLICK >= U32(s.vir + s.len) || (vir + bytes - 1) / CLICK >= U32(s.vir + s.len) then 0
    else U32(U32(s.phys * CLICK) + U32(vir - U32(s.vir * CLICK)))
  }

  /** umap_local() within one memory map; 0 stands for failure. */
  function MapLocal(map_: Maps, seg: int, vir: Word, bytes: Word): Word {
    if bytes == 0 || U32(vir + bytes) <= vir then 0 else MapSegment(Chosen(map_, seg, vir, bytes), vir, bytes)
  }

  /** Whose map umap_local uses: within a guest, a promiscuous or virtual descriptor stands for a VM0 process. */
  function Stand(m: Machine, x: nat): (y: nat)
    requires MachineWF(m) && IsSlot(m.st, x)
    ensures IsSlot(m.st, y)
  {
    if m.st.running == VM0 then x
    else
      match m.st.proc[x].kind
      case Promiscuous(_) => Addr(VM0, m.st.proc[x].nr)
      case Virtual => Addr(VM0, EndpointP(m.st.vmm[m.st.running]))
      case Real => x
  }

  function UmapLocal(m: Machine, x: nat, seg: int, vir: Word, bytes: Word): Word
    requires MachineWF(m) && IsSlot(m.st, x)
  {
    MapLocal(m.maps[Stand(m, x)], seg, vir, bytes)
  }

  function UmapRemote(m: Machine, x: nat, seg: nat, vir: Word, bytes: Word): Word
    requires MachineWF(m) && IsSlot(m.st, x)
  {
    if bytes == 0 || seg >= NR_REMOTE_SEGS then 0
    else
      var f := m.maps[x].far[seg];
      if !f.inUse || U32(vir + bytes) > f.len then 0 else U32(f.phys + vir)
  }

  function UmapBios(vir: Word, bytes: Word): Word {
    if vir >= BIOS_MEM_BEGIN && U32(vir + bytes) <= BIOS_MEM_END then vir
    else if vir >= BASE_MEM_TOP && U32(vir + bytes) <= UPPER_MEM_END then vir
    else 0
  }

  /** Data and stack are laid out linearly, as main() and do_newmap's callers lay them out: both lie the same
      distance above their virtual addresses, and no segment reaches the end of memory. */
  predicate LaidOut(map_: Maps) {
    && map_.data.vir <= map_.data.phys && map_.text.vir <= map_.text.phys
    && map_.stack.phys - map_.stack.vir == map_.data.phys - map_.data.vir
    && (map_.text.phys + map_.text.len) * CLICK < M32
    && (map_.data.phys + map_.data.len) * CLICK < M32
    && (map_.stack.phys + map_.stack.len) * CLICK < M32
  }

  /** main(): the memory map of a boot process, from its header in clicks; the stack is empty and in the data. */
  function BootMaps(base: nat, text: nat, data: nat): Maps
    requires base + text + data < M32
  {
    Maps(Seg(base, 0, text), Seg(base + text, 0, data), Seg(base + text + data, data, 0), [])
  }

  /** The layout of main() is linear, exactly if the process ends below the end of memory. */
  lemma BootLaidOut(base: nat, text: nat, data: nat)
    requires base + text + data < M32
    ensures LaidOut(BootMaps(base, text, data)) <==> (base + text + data) * CLICK < M32
  {
    assert (base + text) * CLICK <= (base + text + data) * CLICK;
  }

  /** Where virtual address 0 of the segment would be. */
  function Base(map_: Maps, seg: int): int {
    if seg == T then (map_.text.phys - map_.text.vir) * CLICK else (map_.data.phys - map_.data.vir) * CLICK
  }

  /** The end of the segment umap_local settles for, as a virtual address. */
  function End(map_: Maps, seg: int, vir: Word, bytes: Word): int {
    if seg == T then (map_.text.vir + map_.text.len) * CLICK
    else if vir + bytes <= (map_.data.vir + map_.data.len) * CLICK then (map_.data.vir + map_.data.len) * CLICK
    else (map_.stack.vir + map_.stack.len) * CLICK
  }

  lemma ClicksUp(a: nat, b: nat)
    requires a > 0
    ensures (a - 1) / CLICK < b <==> a <= b * CLICK
  {
  }

  /** Main result on mapping: an accepted range starts at base plus offset and lies below the end of its
      segment, without wrapping; and every range that does is accepted. */
  lemma MapIsLinear(map_: Maps, seg: int, vir: Word, bytes: Word)
    requires LaidOut(map_)
    ensures var pa := MapLocal(map_, seg, vir, bytes);
            && (pa != 0 ==> pa == Base(map_, seg) + vir && pa + bytes < M32)
            && (pa != 0 <==> bytes > 0 && vir + bytes < M32 && vir + bytes <= End(map_, seg, vir, bytes) && Base(map_, seg) + vir > 0)
  {
    hide Chosen, MapSegment, LaidOut, Base, End;
    if bytes > 0 && vir + bytes < M32 {
      ChosenLinear(map_, seg, vir, bytes);
      MapsSegment(Chosen(map_, seg, vir, bytes), vir, bytes);
    }
  }

  lemma Plain(n: nat)
    requires n < M32
    ensures U32(n) == n
  {
  }

  lemma ChosenLinear(map_: Maps, seg: int, vir: Word, bytes: Word)
    requires LaidOut(map_) && bytes > 0 && vir + bytes < M32
    ensures var s := Chosen(map_, seg, vir, bytes);
            && s.vir <= s.phys && (s.phys + s.len) * CLICK < M32
            && (s.phys - s.vir) * CLICK == Base(map_, seg) && (s.vir + s.len) * CLICK == End(map_, seg, vir, bytes)
  {
    hide U32;
    Plain(map_.data.vir + map_.data.len);
    ClicksUp(vir + bytes, map_.data.vir + map_.data.len);
  }

  /** The checks and the sum for the segment chosen. */
  lemma MapsSegment(s: Seg, vir: Word, bytes: Word)
    requires s.vir <= s.phys && (s.phys + s.len) * CLICK < M32 && bytes > 0 && vir + bytes < M32
    ensures var pa := MapSegment(s, vir, bytes);
            && (vir + bytes <= (s.vir + s.len) * CLICK ==> pa == (s.phys - s.vir) * CLICK + vir && pa + bytes < M32)
            && (vir + bytes > (s.vir + s.len) * CLICK ==> pa == 0)
  {
    hide U32;
    Plain(s.vir + s.len);
    ClicksUp(vir + bytes, s.vir + s.len);
    ClicksUp(vir + 1, s.vir + s.len);
    if vir + bytes <= (s.vir + s.len) * CLICK { WrapsAway(s, vir); }
  }

  /** The unsigned arithmetic of the last step gives the plain sum. */
  lemma WrapsAway(s: Seg, vir: Word)
    requires s.vir <= s.phys && (s.phys + s.len) * CLICK < M32 && vir < (s.vir + s.len) * CLICK
    ensures U32(U32(s.phys * CLICK) + U32(vir - U32(s.vir * CLICK))) == (s.phys - s.vir) * CLICK + vir
  {
    hide U32;
    Plain(s.phys * CLICK);
    Plain(s.vir * CLICK);
    AddsUp(s.phys * CLICK, vir - s.vir * CLICK);
  }

  /** Adding what may be negative, in unsigned arithmetic. */
  lemma AddsUp(a: int, d: int)
    requires 0 <= a < M32 && -0x1_0000_0000 < d < M32 && 0 <= a + d < M32
    ensures U32(a + U32(d)) == a + d
  {
    if d >= 0 {
      Plain(d);
    } else {
      assert U32(d) == d + M32;
      assert (a + d + M32) % M32 == a + d;
    }
  }

  // ---------------------------------------------------------------- the two copies

  /** The descriptor the caller named, or the VM0 process it stands for; n is the process number named. */
  function Redirect(m: Machine, x: nat, n: int, vm: nat): (r: Side)
    requires MachineWF(m) && IsSlot(m.st, x) && vm < NR_VMS
    ensures r.Side? ==> r.slot.Some? && IsSlot(m.st, r.slot.value) && r.phys == 0
  {
    if vm == VM0 then Side(Some(x), n, 0)
    else if m.vms[vm].flags != RUNNING then Bad(EVMSTATUS)
    else
      match m.st.proc[x].kind
      case Real => Side(Some(x), n, 0)
      case Promiscuous(home) =>
        if vm !in m.st.priv[m.st.proc[home].priv].vmBitmap then Bad(EBADVMID) else Side(Some(home), n, 0)
      case Virtual =>
        var ep := m.st.vmm[vm];
        if !IsOkEndpt(m.st, VM0, ep) then Bad(EINVAL)
        else if m.st.proc[Addr(VM0, EndpointP(ep))].proxy != vm then Bad(EBADVMID)
        else Side(Some(Addr(VM0, EndpointP(ep))), EndpointP(ep), 0)
  }

  /** segment & SEGMENT_TYPE, as the number of the type */
  function TypeOf(segment: nat): nat {
    segment / SEGMENT_TYPES % SEGMENT_TYPES
  }

  /** The first half of the loop: which process; None for physical addresses and dead endpoints. */
  function Find(m: Machine, a: VirAddr, viaVm: bool): (r: Side)
    requires MachineWF(m) && (viaVm ==> 0 <= a.vm < NR_VMS)
    ensures r.Side? ==> r.phys == 0 && (r.slot.Some? ==> IsSlot(m.st, r.slot.value))
  {
    var vm := if viaVm then a.vm else m.st.running;
    if TypeOf(a.segment) == PHYS_SEG || !IsOkEndpt(m.st, vm, a.ep) then Side(None, NONE, 0)
    else
      var x := Addr(vm, EndpointP(a.ep));
      Redirect(m, x, EndpointP(a.ep), if viaVm then a.vm else m.st.proc[x].vm)
  }

  /** One turn of the loop: the process and the physical address. */
  function Locate(m: Machine, a: VirAddr, bytes: Word, viaVm: bool): (r: Side)
    requires MachineWF(m) && (viaVm ==> 0 <= a.vm < NR_VMS)
    ensures r.Side? && r.slot.Some? ==> IsSlot(m.st, r.slot.value)
    ensures r.Side? && TypeOf(a.segment) == LOCAL_SEG ==> r.slot.Some?
  {
    var type_, index := TypeOf(a.segment), a.segment % SEGMENT_TYPES;
    var found := Find(m, a, viaVm);
    if found.Bad? then found
    else if type_ == PHYS_SEG then
      if a.offset == 0 && index != 0 then Bad(EFAULT) else found.(phys := a.offset)
    else if type_ !in {LOCAL_SEG, REMOTE_SEG, BIOS_SEG} then Bad(EINVAL)
    else if found.slot == None then Bad(EDEADSRCDST)
    else
      var pa := if type_ == LOCAL_SEG then UmapLocal(m, found.slot.value, index, a.offset, bytes)
                else if type_ == REMOTE_SEG then UmapRemote(m, found.slot.value, index, a.offset, bytes)
                else UmapBios(a.offset, bytes);
      if pa == 0 then Bad(EFAULT) else found.(phys := pa)
  }

  /** FAULT_VM_LIMITS */
  predicate FaultVm(v: VmMem, pa: Word, bytes: Word) {
    pa < v.start || pa > v.end || U32(pa + bytes) > v.end
  }

  /** FAULT_PROC_LIMITS */
  predicate FaultProc(d: Seg, pa: Word, bytes: Word) {
    var lo, hi := U32(d.phys * CLICK), U32(U32(d.phys + d.len) * CLICK);
    pa < lo || pa > hi || U32(pa + bytes) > hi
  }

  /** The VM0 side x of a mixed copy with guest g: a proxy must be g's; anyone else needs, for
      virtual_copy_vm, a promiscuous descriptor in g under the number the caller named. */
  predicate MayServe(m: Machine, x: nat, nr: int, g: nat, viaVm: bool)
    requires MachineWF(m) && IsSlot(m.st, x) && g < NR_VMS
  {
    if m.st.proc[x].proxyServer then m.st.proc[x].proxy == g
    else viaVm ==> IsOkProcN(nr) && m.st.proc[Addr(g, nr)].kind.Promiscuous?
  }

  /** The check on a LOCAL_SEG to LOCAL_SEG copy for a caller in a guest. */
  predicate Passes(m: Machine, src: Side, dst: Side, bytes: Word, viaVm: bool)
    requires MachineWF(m) && src.Side? && dst.Side? && src.slot.Some? && dst.slot.Some?
    requires IsSlot(m.st, src.slot.value) && IsSlot(m.st, dst.slot.value)
  {
    var s, d := src.slot.value, dst.slot.value;
    var sv, dv := m.st.proc[s].vm, m.st.proc[d].vm;
    if sv == dv then !FaultVm(m.vms[sv], src.phys, bytes) && !FaultVm(m.vms[dv], dst.phys, bytes)
    else if dv == VM0 then
      !FaultVm(m.vms[sv], src.phys, bytes) && MayServe(m, d, dst.nr, sv, viaVm) && !FaultProc(m.maps[d].data, dst.phys, bytes)
    else if sv == VM0 then
      !FaultVm(m.vms[dv], dst.phys, bytes) && MayServe(m, s, src.nr, dv, viaVm) && !FaultProc(m.maps[s].data, src.phys, bytes)
    else false
  }

  /** virtual_copy() and, with viaVm, virtual_copy_vm() */
  function Copy(m: Machine, c: nat, src: VirAddr, dst: VirAddr, bytes: Word, viaVm: bool): (r: Outcome)
    requires MachineWF(m) && IsSlot(m.st, c) && (viaVm ==> 0 <= src.vm < NR_VMS && 0 <= dst.vm < NR_VMS)
    ensures r.Copied? ==> r.src.Side? && r.dst.Side?
  {
    if bytes == 0 then Denied(EDOM)
    else
      var from := Locate(m, src, bytes, viaVm);
      if from.Bad? then Denied(from.e)
      else
        var to := Locate(m, dst, bytes, viaVm);
        if to.Bad? then Denied(to.e)
        else if Guarded(m, c, src, dst) && !Passes(m, from, to, bytes, viaVm) then Denied(EFAULT)
        else Copied(from, to)
  }

  /** The copies that are checked. */
  predicate Guarded(m: Machine, c: nat, src: VirAddr, dst: VirAddr)
    requires MachineWF(m) && IsSlot(m.st, c)
  {
    m.st.proc[c].vm != VM0 && TypeOf(src.segment) == LOCAL_SEG && TypeOf(dst.segment) == LOCAL_SEG
  }

  // ---------------------------------------------------------------- isolation

  /** Plain arithmetic: the bytes from a on lie in [lo, hi]. */
  predicate Within(lo: int, hi: int, a: int, bytes: int) {
    lo <= a && a + bytes <= hi
  }

  predicate InGuest(m: Machine, side: Side, bytes: Word)
    requires MachineWF(m) && side.Side? && side.slot.Some? && IsSlot(m.st, side.slot.value)
  {
    var v := m.vms[m.st.proc[side.slot.value].vm];
    Within(v.start, v.end, side.phys, bytes)
  }

  predicate InDataSegment(m: Machine, side: Side, bytes: Word)
    requires MachineWF(m) && side.Side? && side.slot.Some? && IsSlot(m.st, side.slot.value)
  {
    var d := m.maps[side.slot.value].data;
    Within(d.phys * CLICK, (d.phys + d.len) * CLICK, side.phys, bytes)
  }

  /** What a guest may copy: within one VM; or between a guest and the data segment of a VM0 process that
      serves it; never between two guests. */
  predicate Allowed(m: Machine, src: Side, dst: Side, bytes: Word, viaVm: bool)
    requires MachineWF(m) && src.Side? && dst.Side? && src.slot.Some? && dst.slot.Some?
    requires IsSlot(m.st, src.slot.value) && IsSlot(m.st, dst.slot.value)
  {
    var s, d := src.slot.value, dst.slot.value;
    var sv, dv := m.st.proc[s].vm, m.st.proc[d].vm;
    || (sv == dv && InGuest(m, src, bytes) && InGuest(m, dst, bytes))
    || (sv != dv && dv == VM0 && InGuest(m, src, bytes) && InDataSegment(m, dst, bytes) && MayServe(m, d, dst.nr, sv, viaVm))
    || (sv != dv && sv == VM0 && InGuest(m, dst, bytes) && InDataSegment(m, src, bytes) && MayServe(m, s, src.nr, dv, viaVm))
  }

  ghost predicate AllLaidOut(m: Machine) {
    forall x :: 0 <= x < |m.maps| ==> LaidOut(m.maps[x])
  }

  lemma VmLimitsExactly(v: VmMem, pa: Word, bytes: Word)
    requires pa + bytes < M32
    ensures !FaultVm(v, pa, bytes) <==> Within(v.start, v.end, pa, bytes)
  {
  }

  lemma ProcLimitsExactly(map_: Maps, pa: Word, bytes: Word)
    requires LaidOut(map_) && pa + bytes < M32
    ensures !FaultProc(map_.data, pa, bytes) <==> Within(map_.data.phys * CLICK, (map_.data.phys + map_.data.len) * CLICK, pa, bytes)
  {
    hide U32;
    Plain(map_.data.phys * CLICK);
    Plain(map_.data.phys + map_.data.len);
    Plain((map_.data.phys + map_.data.len) * CLICK);
    Plain(pa + bytes);
    assert map_.data.phys * CLICK <= (map_.data.phys + map_.data.len) * CLICK;
  }

  /** A local side that could be mapped ends below the end of memory. */
  lemma LocalSide(m: Machine, a: VirAddr, bytes: Word, viaVm: bool)
    requires MachineWF(m) && AllLaidOut(m) && (viaVm ==> 0 <= a.vm < NR_VMS)
    requires TypeOf(a.segment) == LOCAL_SEG && Locate(m, a, bytes, viaVm).Side?
    ensures var side := Locate(m, a, bytes, viaVm); side.slot.Some? && side.phys > 0 && side.phys + bytes < M32
  {
    var x := Find(m, a, viaVm).slot.value;
    MapIsLinear(m.maps[Stand(m, x)], a.segment % SEGMENT_TYPES, a.offset, bytes);
  }

  /** Main result: a guest's local copy succeeds exactly when both sides can be mapped and the copy is allowed:
      every guest side lies inside its VM, the VM0 side of a mixed copy inside its data segment, and the two are
      never in two different guests. */
  lemma CopyAllowedExactly(m: Machine, c: nat, src: VirAddr, dst: VirAddr, bytes: Word, viaVm: bool)
    requires MachineWF(m) && AllLaidOut(m) && IsSlot(m.st, c) && (viaVm ==> 0 <= src.vm < NR_VMS && 0 <= dst.vm < NR_VMS)
    requires Guarded(m, c, src, dst)
    ensures var from, to := Locate(m, src, bytes, viaVm), Locate(m, dst, bytes, viaVm);
            Copy(m, c, src, dst, bytes, viaVm).Copied?
            <==> bytes > 0 && from.Side? && to.Side? && Allowed(m, from, to, bytes, viaVm)
  {
    var from, to := Locate(m, src, bytes, viaVm), Locate(m, dst, bytes, viaVm);
    if from.Side? && to.Side? {
      LocalSide(m, src, bytes, viaVm);
      LocalSide(m, dst, bytes, viaVm);
      var s, d := from.slot.value, to.slot.value;
      VmLimitsExactly(m.vms[m.st.proc[s].vm], from.phys, bytes);
      VmLimitsExactly(m.vms[m.st.proc[d].vm], to.phys, bytes);
      ProcLimitsExactly(m.maps[s], from.phys, bytes);
      ProcLimitsExactly(m.maps[d], to.phys, bytes);
    }
  }

  /** Corollary, whatever the memory maps are: no successful copy touches two different guests. */
  lemma NeverTwoGuests(m: Machine, c: nat, src: VirAddr, dst: VirAddr, bytes: Word, viaVm: bool)
    requires MachineWF(m) && IsSlot(m.st, c) && (viaVm ==> 0 <= src.vm < NR_VMS && 0 <= dst.vm < NR_VMS)
    requires Guarded(m, c, src, dst) && Copy(m, c, src, dst, bytes, viaVm).Copied?
    ensures var r := Copy(m, c, src, dst, bytes, viaVm);
            var sv, dv := m.st.proc[r.src.slot.value].vm, m.st.proc[r.dst.slot.value].vm;
            sv == dv || sv == VM0 || dv == VM0
  {
  }

  // ---------------------------------------------------------------- whose bytes go where

  /** Address a means the memory of descriptor x, under process number n: the descriptor it names, but for a guest's
      promiscuous descriptor its home, if that serves the guest, and for a guest's virtual one the guest's proxy.  The
      guest must be running. */
  ghost predicate Means(m: Machine, a: VirAddr, viaVm: bool, x: nat, n: int)
    requires MachineWF(m) && (viaVm ==> 0 <= a.vm < NR_VMS)
  {
    var vm := if viaVm then a.vm else m.st.running;
    IsOkEndpt(m.st, vm, a.ep)
    && var y := Addr(vm, EndpointP(a.ep));
       var guest := if viaVm then a.vm else m.st.proc[y].vm;
       if guest == VM0 then x == y && n == EndpointP(a.ep)
       else
         && m.vms[guest].flags == RUNNING
         && match m.st.proc[y].kind
            case Real => x == y && n == EndpointP(a.ep)
            case Promiscuous(home) =>
              x == home && n == EndpointP(a.ep) && guest in m.st.priv[m.st.proc[home].priv].vmBitmap
            case Virtual =>
              && IsOkEndpt(m.st, VM0, m.st.vmm[guest])
              && n == EndpointP(m.st.vmm[guest]) && x == Addr(VM0, n) && m.st.proc[x].proxy == guest
  }

  /** The map of descriptor x is that of y: its own, but while a guest runs, that of the VM0 process of the same number
      or the guest's proxy if x itself is promiscuous or virtual. */
  ghost predicate MapOf(m: Machine, x: nat, y: nat)
    requires MachineWF(m) && IsSlot(m.st, x)
  {
    if m.st.running == VM0 || m.st.proc[x].kind.Real? then y == x
    else y == Addr(VM0, if m.st.proc[x].kind.Virtual? then EndpointP(m.st.vmm[m.st.running]) else m.st.proc[x].nr)
  }

  /** The physical address that a has through the map of y. */
  function At(m: Machine, a: VirAddr, y: nat): int
    requires y < |m.maps|
  {
    Base(m.maps[y], a.segment % SEGMENT_TYPES) + a.offset
  }

  /** The bytes from a on are in one segment of the map of y. */
  predicate InMap(m: Machine, a: VirAddr, y: nat, bytes: Word)
    requires y < |m.maps|
  {
    && At(m, a, y) > 0 && a.offset + bytes < M32
    && a.offset + bytes <= End(m.maps[y], a.segment % SEGMENT_TYPES, a.offset, bytes)
  }

  lemma MeansExactly(m: Machine, a: VirAddr, viaVm: bool, x: nat, n: int)
    requires MachineWF(m) && (viaVm ==> 0 <= a.vm < NR_VMS) && TypeOf(a.segment) == LOCAL_SEG
    ensures Means(m, a, viaVm, x, n) <==> Find(m, a, viaVm) == Side(Some(x), n, 0)
    ensures Means(m, a, viaVm, x, n) ==> IsSlot(m.st, x)
  {
  }

  /** Where a local side is, if it can be mapped at all. */
  lemma LocateExactly(m: Machine, a: VirAddr, bytes: Word, viaVm: bool, x: nat, n: int, y: nat)
    requires MachineWF(m) && AllLaidOut(m) && (viaVm ==> 0 <= a.vm < NR_VMS) && TypeOf(a.segment) == LOCAL_SEG
    requires Means(m, a, viaVm, x, n) && IsSlot(m.st, x) && MapOf(m, x, y)
    ensures y < |m.maps|
    ensures Locate(m, a, bytes, viaVm) == if bytes > 0 && InMap(m, a, y, bytes) then Side(Some(x), n, At(m, a, y)) else Bad(EFAULT)
  {
    hide Means, Find, MapLocal, LaidOut, End, Base;
    MeansExactly(m, a, viaVm, x, n);
    assert Stand(m, x) == y;
    MapIsLinear(m.maps[y], a.segment % SEGMENT_TYPES, a.offset, bytes);
  }

  /** The VM0 process d may take part in a copy with guest g: the proxy of a guest only with that guest; another process
      without more ado, but in virtual_copy_vm only if the guest has a promiscuous descriptor n. */
  predicate Serves(m: Machine, d: nat, n: int, g: nat, viaVm: bool)
    requires MachineWF(m) && IsSlot(m.st, d) && g < NR_VMS
  {
    && (m.st.proc[d].proxyServer ==> m.st.proc[d].proxy == g)
    && (!m.st.proc[d].proxyServer && viaVm ==> IsOkProcN(n) && m.st.proc[Addr(g, n)].kind.Promiscuous?)
  }

  /** Main result, over what the caller passes: a guest's local copy succeeds exactly when both addresses mean somebody, are
      in his map, and either both are in the memory of one VM, or one is in the memory of a guest and the other in the data
      segment of a VM0 process that serves it. */
  lemma CopyExactly(m: Machine, c: nat, src: VirAddr, dst: VirAddr, bytes: Word, viaVm: bool,
                    s: nat, sn: int, sy: nat, d: nat, dn: int, dy: nat)
    requires MachineWF(m) && AllLaidOut(m) && IsSlot(m.st, c) && (viaVm ==> 0 <= src.vm < NR_VMS && 0 <= dst.vm < NR_VMS)
    requires Guarded(m, c, src, dst)
    requires Means(m, src, viaVm, s, sn) && IsSlot(m.st, s) && MapOf(m, s, sy)
    requires Means(m, dst, viaVm, d, dn) && IsSlot(m.st, d) && MapOf(m, d, dy)
    ensures sy < |m.maps| && dy < |m.maps|
    ensures var sv, dv, from, to := m.st.proc[s].vm, m.st.proc[d].vm, At(m, src, sy), At(m, dst, dy);
            Copy(m, c, src, dst, bytes, viaVm).Copied?
            <==> bytes > 0 && InMap(m, src, sy, bytes) && InMap(m, dst, dy, bytes)
                 && (sv == dv || sv == VM0 || dv == VM0)
                 && (sv == dv || sv != VM0 ==> Within(m.vms[sv].start, m.vms[sv].end, from, bytes))
                 && (sv == dv || dv != VM0 ==> Within(m.vms[dv].start, m.vms[dv].end, to, bytes))
                 && (sv == VM0 != dv ==> InData(m, s, from, bytes) && Serves(m, s, sn, dv, viaVm))
                 && (dv == VM0 != sv ==> InData(m, d, to, bytes) && Serves(m, d, dn, sv, viaVm))
  {
    hide Means, Locate, LaidOut, InMap, At, MapOf, Copy;
    LocateExactly(m, src, bytes, viaVm, s, sn, sy);
    LocateExactly(m, dst, bytes, viaVm, d, dn, dy);
    CopyAllowedExactly(m, c, src, dst, bytes, viaVm);
  }

  predicate InData(m: Machine, x: nat, pa: int, bytes: Word)
    requires x < |m.maps|
  {
    var data := m.maps[x].data;
    Within(data.phys * CLICK, (data.phys + data.len) * CLICK, pa, bytes)
  }

  /** Address a is looked up in the map of y. */
  ghost predicate Through(m: Machine, a: VirAddr, viaVm: bool, y: nat)
    requires MachineWF(m) && (viaVm ==> 0 <= a.vm < NR_VMS)
  {
    y < |m.maps| && exists x: nat, n :: Means(m, a, viaVm, x, n) && IsSlot(m.st, x) && MapOf(m, x, y)
  }

  /** There is at most one such map. */
  lemma OneMap(m: Machine, a: VirAddr, viaVm: bool, y: nat, z: nat)
    requires MachineWF(m) && (viaVm ==> 0 <= a.vm < NR_VMS)
    requires Through(m, a, viaVm, y) && Through(m, a, viaVm, z)
    ensures y == z
  {
    hide MachineWF;
  }

  /** What can be mapped means somebody, and is where his map says. */
  lemma LocatedThrough(m: Machine, a: VirAddr, bytes: Word, viaVm: bool) returns (y: nat)
    requires MachineWF(m) && AllLaidOut(m) && (viaVm ==> 0 <= a.vm < NR_VMS)
    requires TypeOf(a.segment) == LOCAL_SEG && Locate(m, a, bytes, viaVm).Side?
    ensures y < |m.maps| && Through(m, a, viaVm, y) && Locate(m, a, bytes, viaVm).phys == At(m, a, y)
  {
    hide Means, Find, MapOf, At, InMap, UmapLocal, LaidOut;
    var f := Find(m, a, viaVm);
    var x := f.slot.value;
    MeansExactly(m, a, viaVm, x, f.nr);
    y := Stand(m, x);
    assert MapOf(m, x, y) by { StandMap(m, x); }
    LocateExactly(m, a, bytes, viaVm, x, f.nr, y);
  }

  lemma StandMap(m: Machine, x: nat)
    requires MachineWF(m) && IsSlot(m.st, x)
    ensures MapOf(m, x, Stand(m, x))
  {
  }

  /** A copy that succeeds has both its sides from somebody. */
  lemma CopyOfSomebody(m: Machine, c: nat, src: VirAddr, dst: VirAddr, bytes: Word, viaVm: bool)
    requires MachineWF(m) && AllLaidOut(m) && IsSlot(m.st, c) && (viaVm ==> 0 <= src.vm < NR_VMS && 0 <= dst.vm < NR_VMS)
    requires Guarded(m, c, src, dst) && Copy(m, c, src, dst, bytes, viaVm).Copied?
    ensures exists sy, dy :: Through(m, src, viaVm, sy) && Through(m, dst, viaVm, dy)
  {
    hide Through, Locate, Passes;
    var sy := LocatedThrough(m, src, bytes, viaVm);
    var dy := LocatedThrough(m, dst, bytes, viaVm);
  }

  // ---------------------------------------------------------------- memory

  /** The bytes of memory that a guest's copy may change. */
  ghost predicate MayChange(m: Machine, a: int) {
    || (exists v :: 0 <= v < |m.vms| && m.vms[v].start <= a < m.vms[v].end)
    || (exists x :: 0 <= x < |m.maps| && x < |m.st.proc| && m.st.proc[x].vm == VM0 && InSegment(m, x, a))
  }

  predicate InSegment(m: Machine, x: int, a: int)
    requires 0 <= x < |m.maps|
  {
    m.maps[x].data.phys * CLICK <= a < (m.maps[x].data.phys + m.maps[x].data.len) * CLICK
  }

  /** phys_copy(), lowest byte first. */
  method PhysCopy(mem: array<int>, src: Word, dst: Word, bytes: Word)
    requires mem.Length == M32 && src + bytes < M32 && dst + bytes < M32
    modifies mem
    ensures forall a :: 0 <= a < mem.Length && !(dst <= a < dst + bytes) ==> mem[a] == old(mem[a])
    ensures dst <= src || dst >= src + bytes ==> forall a :: dst <= a < dst + bytes ==> mem[a] == old(mem[src + (a - dst)])
  {
    var i := 0;
    while i < bytes
      invariant 0 <= i <= bytes
      invariant forall a :: 0 <= a < mem.Length && !(dst <= a < dst + i) ==> mem[a] == old(mem[a])
      invariant dst <= src || dst >= src + bytes ==> forall a :: dst <= a < dst + i ==> mem[a] == old(mem[src + (a - dst)])
    {
      mem[dst + i] := mem[src + i];
      i := i + 1;
    }
  }

  /** The bytes at src have gone to dst, each looked up in its map, and no other byte has changed. */
  ghost predicate Moved(m: Machine, src: VirAddr, sy: nat, dst: VirAddr, dy: nat, bytes: Word, before: seq<int>, after: seq<int>)
    requires sy < |m.maps| && dy < |m.maps| && |before| == |after| == M32
  {
    var from, to := At(m, src, sy), At(m, dst, dy);
    && 0 < from < from + bytes < M32 && 0 < to < to + bytes < M32
    && (forall a :: 0 <= a < M32 && !(to <= a < to + bytes) ==> after[a] == before[a])
    && (to <= from || to >= from + bytes ==> forall a :: to <= a < to + bytes ==> after[a] == before[from + (a - to)])
  }

  ghost predicate MovedThrough(m: Machine, src: VirAddr, dst: VirAddr, viaVm: bool, bytes: Word, before: seq<int>, after: seq<int>)
    requires MachineWF(m) && |before| == |after| == M32 && (viaVm ==> 0 <= src.vm < NR_VMS && 0 <= dst.vm < NR_VMS)
  {
    exists sy: nat, dy: nat ::
      Through(m, src, viaVm, sy) && Through(m, dst, viaVm, dy) && Moved(m, src, sy, dst, dy, bytes, before, after)
  }

  /** The copy itself, for a guest's local copy. */
  method GuestCopy(m: Machine, c: nat, src: VirAddr, dst: VirAddr, bytes: Word, viaVm: bool, mem: array<int>) returns (r: Outcome)
    requires MachineWF(m) && AllLaidOut(m) && IsSlot(m.st, c) && (viaVm ==> 0 <= src.vm < NR_VMS && 0 <= dst.vm < NR_VMS)
    requires Guarded(m, c, src, dst) && mem.Length == M32
    modifies mem
    ensures r == Copy(m, c, src, dst, bytes, viaVm)
    ensures r.Denied? ==> mem[..] == old(mem[..])
    ensures forall a :: 0 <= a < mem.Length && !MayChange(m, a) ==> mem[a] == old(mem[a])
    ensures r.Copied? ==> MovedThrough(m, src, dst, viaVm, bytes, old(mem[..]), mem[..])
  {
    hide Locate, Passes, Allowed, MayChange, MachineWF, Through, At;
    if bytes == 0 { return Denied(EDOM); }
    var p: seq<Side> := [];
    var i := 0;
    while i < 2
      invariant 0 <= i <= 2 && |p| == i
      invariant i >= 1 ==> p[0] == Locate(m, src, bytes, viaVm) && p[0].Side?
      invariant i >= 2 ==> p[1] == Locate(m, dst, bytes, viaVm) && p[1].Side?
    {
      var side := Locate(m, if i == 0 then src else dst, bytes, viaVm);
      if side.Bad? { return Denied(side.e); }
      p := p + [side];
      i := i + 1;
    }
    LocalSide(m, src, bytes, viaVm);
    LocalSide(m, dst, bytes, viaVm);
    if !Passes(m, p[0], p[1], bytes, viaVm) { return Denied(EFAULT); }
    CopyAllowedExactly(m, c, src, dst, bytes, viaVm);
    DestinationMayChange(m, p[0], p[1], bytes, viaVm);
    PhysCopy(mem, p[0].phys, p[1].phys, bytes);
    ghost var sy := LocatedThrough(m, src, bytes, viaVm);
    ghost var dy := LocatedThrough(m, dst, bytes, viaVm);
    assert Moved(m, src, sy, dst, dy, bytes, old(mem[..]), mem[..]);
    return Copied(p[0], p[1]);
  }

  lemma DestinationMayChange(m: Machine, src: Side, dst: Side, bytes: Word, viaVm: bool)
    requires MachineWF(m) && src.Side? && dst.Side? && src.slot.Some? && dst.slot.Some?
    requires IsSlot(m.st, src.slot.value) && IsSlot(m.st, dst.slot.value) && Allowed(m, src, dst, bytes, viaVm)
    ensures forall a :: dst.phys <= a < dst.phys + bytes ==> MayChange(m, a)
  {
    var d := dst.slot.value;
    var dv := m.st.proc[d].vm;
    forall a | dst.phys <= a < dst.phys + bytes
      ensures MayChange(m, a)
    {
      if InGuest(m, dst, bytes) {
        assert m.vms[dv].start <= a < m.vms[dv].end;
      } else {
        assert InSegment(m, d, a);
      }
    }
  }
}
