/** The hypervisor's VM table as a state machine: lifecycle, shadow page tables, round robin. */
module Hypervisor {
  import opened Wrappers

  const MAX_VMS := 4
  const HV_SIZE := 0x1_0000
  const GUEST_MEM_BASE := 0x1_0000
  const GUEST_MEM_PER_VM := 0x1_0000
  const TOTAL_MEM_SIZE := 0x6_0000
  const PAGE_SIZE := 1024
  const PT_ENTRIES := 64
  const UINT32 := 0x1_0000_0000

  type Uint32 = x: int | 0 <= x < 0x1_0000_0000

  datatype VmState = Free | Created | Ready | Running | Blocked | Halted

  datatype Vm = Vm(state: VmState, memBase: Uint32, memSize: Uint32)

  /** A shadow page table entry: host page address and flags (bit 0: valid). */
  datatype Spte = Spte(hpa: Uint32, flags: Uint32)

  const PTE_VALID := 1
  const PTE_RWX := 14
  const PTE_GUEST := 16

  predicate IsMapped(e: Spte) { e.flags % 2 == 1 }

  type Table = t: seq<Spte> | |t| == PT_ENTRIES witness seq(PT_ENTRIES, (i: int) => Spte(0, 0))

  type Ram = r: seq<int> | |r| == TOTAL_MEM_SIZE witness seq(TOTAL_MEM_SIZE, (i: int) => 0)

  datatype Hv = Hv(vms: seq<Vm>, tables: seq<Table>, current: nat, count: int, rrNext: nat, ram: Ram)

  /** The start of the 64 KB window that a slot gets when no base is given. */
  function Window(slot: nat): int { GUEST_MEM_BASE + slot * GUEST_MEM_PER_VM }

  /** A size in whole pages. */
  function Rounded(size: nat): nat { (size + PAGE_SIZE - 1) / PAGE_SIZE * PAGE_SIZE }

  /** How many bytes from its base on belong to the VM in a slot: the slot's window when it starts there, and its
      memory in whole pages when it has another base. */
  function Extent(slot: nat, vm: Vm): nat {
    if vm.memBase == Window(slot) then GUEST_MEM_PER_VM else Rounded(vm.memSize)
  }

  predicate Belongs(slot: nat, vm: Vm, a: int) { vm.memBase <= a < vm.memBase + Extent(slot, vm) }

  predicate Shaped(h: Hv) {
    |h.vms| == MAX_VMS && |h.tables| == MAX_VMS && h.current < MAX_VMS && h.rrNext < MAX_VMS
  }

  /** After hv_init: no VM, nothing mapped. */
  function Boot(ram: Ram): Hv {
    Hv(seq(MAX_VMS, (i: int) => Vm(Free, 0, 0)), seq(MAX_VMS, (i: int) => seq(PT_ENTRIES, (j: int) => Spte(0, 0))), 0,
        0, 0, ram)
  }

  // ---- Guest memory

  /** Byte i is one of the n bytes from address a on; addresses wrap around at 2^32. */
  predicate Covers(a: Uint32, n: Uint32, i: nat) { a <= i < a + n || i + UINT32 < a + n }

  /** Zeroing n bytes from address a on; what lies outside RAM is not part of this model. */
  function Wipe(r: Ram, a: Uint32, n: Uint32): Ram {
    seq(TOTAL_MEM_SIZE, i requires 0 <= i < TOTAL_MEM_SIZE => if Covers(a, n, i) then 0 else r[i])
  }

  // ---- vm_memory.c

  /** The table that maps a window's pages one to one, as far as memSize reaches. */
  function IdentityTable(base: Uint32, size: Uint32): Table {
    seq(PT_ENTRIES, i requires 0 <= i < PT_ENTRIES =>
      if i * PAGE_SIZE >= size then Spte(0, 0)
      else Spte((base + i * PAGE_SIZE) % UINT32, PTE_VALID + PTE_RWX + PTE_GUEST))
  }

  /** The 32-bit sum that the checks compare. */
  function End(base: Uint32, size: Uint32): Uint32 { (base + size) % UINT32 }

  function AllocMemory(h: Hv, id: nat): (r: (Hv, int))
    requires Shaped(h)
    ensures Shaped(r.0)
  {
    if id >= MAX_VMS then (h, -1)
    else
      var vm := h.vms[id];
      if End(vm.memBase, vm.memSize) > TOTAL_MEM_SIZE then (h, -2)
      else if vm.memSize > PT_ENTRIES * PAGE_SIZE then (h, -3)
      else if vm.memBase < HV_SIZE then (h, -4)
      else
        (h.(ram := Wipe(h.ram, vm.memBase, vm.memSize / 4 * 4),
            tables := h.tables[id := IdentityTable(vm.memBase, vm.memSize)]), 0)
  }

  /** Slots other than id that hold address hpa in their memory. */
  predicate OwnedByOther(h: Hv, id: nat, hpa: Uint32)
    requires Shaped(h)
  {
    exists o :: 0 <= o < MAX_VMS && o != id && Owns(h.vms[o], hpa)
  }

  predicate Owns(vm: Vm, hpa: Uint32) {
    vm.state != Free && vm.memBase <= hpa < End(vm.memBase, vm.memSize)
  }

  function SetValid(flags: Uint32): Uint32 { if flags % 2 == 1 then flags else flags + 1 }

  function MapPage(h: Hv, id: nat, gpa: Uint32, hpa: Uint32, flags: Uint32): (r: (Hv, int))
    requires Shaped(h)
    ensures Shaped(r.0)
  {
    if id >= MAX_VMS then (h, -1)
    else if gpa % PAGE_SIZE != 0 then (h, -2)
    else if hpa % PAGE_SIZE != 0 then (h, -3)
    else if gpa / PAGE_SIZE >= PT_ENTRIES then (h, -4)
    else if hpa < HV_SIZE then (h, -5)
    else if OwnedByOther(h, id, hpa) then (h, -6)
    else (h.(tables := h.tables[id := h.tables[id][gpa / PAGE_SIZE := Spte(hpa, SetValid(flags))]]), 0)
  }

  /** Guest to host address; None is a page fault. */
  function TranslateGpa(h: Hv, id: nat, gpa: Uint32): Option<int>
    requires Shaped(h)
  {
    if id >= MAX_VMS || gpa / PAGE_SIZE >= PT_ENTRIES || !IsMapped(h.tables[id][gpa / PAGE_SIZE]) then None
    else Some((h.tables[id][gpa / PAGE_SIZE].hpa + gpa % PAGE_SIZE) % UINT32)
  }

  // ---- vm_manager.c

  function FirstFree(vms: seq<Vm>): (i: nat)
    ensures i <= |vms| && (i < |vms| ==> vms[i].state == Free) && forall j :: 0 <= j < i ==> vms[j].state != Free
  {
    if vms == [] || vms[0].state == Free then 0 else 1 + FirstFree(vms[1..])
  }

  function ChosenBase(memBase: Uint32, slot: nat): Uint32
    requires slot < MAX_VMS
  {
    if memBase != 0 then memBase else Window(slot)
  }

  /** vm_create; memBase 0 asks for the slot's own window. */
  function CreateVm(h: Hv, memBase: Uint32, memSize: Uint32, entryPc: Uint32): (r: (Hv, int))
    requires Shaped(h)
    ensures Shaped(r.0)
  {
    if memSize == 0 || memSize > GUEST_MEM_PER_VM then (h, -1)
    else if entryPc >= memSize then (h, -2)
    else
      var slot := FirstFree(h.vms);
      if slot == MAX_VMS then (h, -3)
      else
        var base := ChosenBase(memBase, slot);
        var h1 := h.(vms := h.vms[slot := Vm(Created, base, memSize)]);
        if base < HV_SIZE then (h1, -4)
        else if End(base, memSize) > TOTAL_MEM_SIZE then (h1, -5)
        else
          // vm_alloc_memory repeats these checks, so its error (-6) cannot occur.
          var (h2, r) := AllocMemory(h1, slot);
          assert r == 0;
          (h2.(count := (h2.count + 1) % 256), slot as int)
  }

  function SetState(h: Hv, id: nat, s: VmState): Hv
    requires id < |h.vms|
  {
    h.(vms := h.vms[id := h.vms[id].(state := s)])
  }

  function DestroyVm(h: Hv, id: nat): (r: (Hv, int))
    requires Shaped(h)
    ensures Shaped(r.0)
  {
    if id >= MAX_VMS then (h, -1)
    else if h.vms[id].state == Free then (h, -2)
    else if h.vms[id].state == Running then (h, -3)
    else (SetState(h, id, Free).(ram := Wipe(h.ram, h.vms[id].memBase, h.vms[id].memSize),
        count := (h.count - 1) % 256), 0)
  }

  function StartVm(h: Hv, id: nat): (r: (Hv, int))
    requires Shaped(h)
    ensures Shaped(r.0)
  {
    if id >= MAX_VMS then (h, -1)
    else if h.vms[id].state == Free then (h, -2)
    else if h.vms[id].state == Running then (h, -3)
    else (SetState(h, id, Ready), 0)
  }

  function PauseVm(h: Hv, id: nat): (r: (Hv, int))
    requires Shaped(h)
    ensures Shaped(r.0)
  {
    if id >= MAX_VMS then (h, -1)
    else if h.vms[id].state == Free then (h, -2)
    else if h.vms[id].state == Running || h.vms[id].state == Ready then (SetState(h, id, Blocked), 0)
    else (h, -3)
  }

  // ---- hv_core.c

  predicate Runnable(vm: Vm) { vm.state == Ready || vm.state == Running }

  /** The slot k places after `from`, going round a table of n slots. */
  function Around(n: nat, from: nat, k: nat): (v: nat)
    requires n > 0
    ensures v < n
  {
    (from + k) % n
  }

  /** The distance from `from` to the first runnable slot; |vms| when there is none. */
  function Distance(vms: seq<Vm>, from: nat, d: nat): (r: nat)
    requires vms != [] && d <= |vms|
    ensures d <= r <= |vms| && (r < |vms| ==> Runnable(vms[Around(|vms|, from, r)]))
    ensures forall k :: d <= k < r ==> !Runnable(vms[Around(|vms|, from, k)])
    decreases |vms| - d
  {
    hide Around;
    if d == |vms| || Runnable(vms[Around(|vms|, from, d)]) then d else Distance(vms, from, d + 1)
  }

  /** hv_pick_next_vm: the slot it picks and the next value of the round-robin pointer, for any table size. */
  function Pick(vms: seq<Vm>, from: nat): Option<(nat, nat)>
    requires vms != []
  {
    var d := Distance(vms, from, 0);
    if d == |vms| then None
    else
      var v := Around(|vms|, from, d);
      Some((v, Around(|vms|, v, 1)))
  }

  /** vm_schedule_next and the round of hv_main behind it: the VM on the CPU is demoted, the next one runs. */
  function Schedule(h: Hv): (r: Hv)
    requires Shaped(h)
    ensures Shaped(r)
  {
    var h1 := if h.vms[h.current].state == Running then SetState(h, h.current, Ready) else h;
    var p := Pick(h1.vms, h1.rrNext);
    if p.None? then h1
    else
      var (v, next) := p.value;
      var h2 := if h1.vms[v].state == Ready then SetState(h1, v, Running) else h1;
      h2.(current := v, rrNext := next)
  }

  /** The hypercall VM_EXIT of the VM on the CPU. */
  function Exit(h: Hv): (r: Hv)
    requires Shaped(h)
    ensures Shaped(r)
  {
    Schedule(SetState(h, h.current, Halted))
  }

  // ---- Runs

  datatype Event =
    | Create(memBase: Uint32, memSize: Uint32, entryPc: Uint32)
    | Destroy(id: nat)
    | Start(id: nat)
    | Pause(id: nat)
    | Map(id: nat, gpa: Uint32, hpa: Uint32, flags: Uint32)
    | Tick
    | VmExit

  function LiveCount(vms: seq<Vm>): (n: nat)
    ensures n <= |vms|
  {
    if vms == [] then 0 else (if vms[0].state != Free then 1 else 0) + LiveCount(vms[1..])
  }

  /** All that belongs to the VM lies in RAM above the hypervisor. */
  predicate Placed(slot: nat, vm: Vm) { HV_SIZE <= vm.memBase && vm.memBase + Extent(slot, vm) <= TOTAL_MEM_SIZE }

  predicate Apart(v: nat, a: Vm, w: nat, b: Vm) {
    a.memBase + Extent(v, a) <= b.memBase || b.memBase + Extent(w, b) <= a.memBase
  }

  /** No two live VMs share memory. */
  predicate Scattered(vms: seq<Vm>) {
    forall v, w :: 0 <= v < w < |vms| && vms[v].state != Free && vms[w].state != Free ==> Apart(v, vms[v], w, vms[w])
  }

  /** The page at hpa belongs to the VM. */
  predicate OwnPage(slot: nat, vm: Vm, hpa: Uint32) {
    vm.memBase <= hpa && hpa + PAGE_SIZE <= vm.memBase + Extent(slot, vm)
  }

  /** The table maps pages only that belong to the VM. */
  predicate Confined(h: Hv, v: nat)
    requires Shaped(h) && v < MAX_VMS
  {
    && Placed(v, h.vms[v]) && 0 < h.vms[v].memSize <= GUEST_MEM_PER_VM
    && forall k :: 0 <= k < PT_ENTRIES && IsMapped(h.tables[v][k]) ==> OwnPage(v, h.vms[v], h.tables[v][k].hpa)
  }

  /** What holds in every reachable state. */
  ghost predicate Inv(h: Hv) {
    && Shaped(h) && h.count == LiveCount(h.vms)
    && (forall v :: 0 <= v < MAX_VMS && h.vms[v].state == Running ==> v == h.current)
    && (forall v :: 0 <= v < MAX_VMS && h.vms[v].state != Free ==> Confined(h, v))
    && Scattered(h.vms)
  }

  /** vm_create returns -1, -2 or -3 and changes nothing. */
  predicate Refused(h: Hv, memSize: Uint32, entryPc: Uint32)
    requires Shaped(h)
  {
    memSize == 0 || memSize > GUEST_MEM_PER_VM || entryPc >= memSize || FirstFree(h.vms) == MAX_VMS
  }

  /** The memory of a new VM in the slot lies in RAM, above the hypervisor and apart from all live VMs. */
  predicate HasRoom(h: Hv, slot: nat, vm: Vm)
    requires Shaped(h)
  {
    Placed(slot, vm) && forall w :: 0 <= w < MAX_VMS && w != slot && h.vms[w].state != Free ==>
        Apart(slot, vm, w, h.vms[w])
  }

  /** A new VM finds room, a mapping into a live VM's table that is carried out goes to a page that belongs to the
      VM, and the VM that exits was not destroyed while on the CPU. */
  predicate Legal(h: Hv, e: Event)
    requires Shaped(h)
  {
    match e
    case Create(base, size, pc) =>
      !Refused(h, size, pc) ==>
        var slot := FirstFree(h.vms);
        HasRoom(h, slot, Vm(Created, ChosenBase(base, slot), size))
    case Map(id, gpa, hpa, flags) =>
      MapPage(h, id, gpa, hpa, flags).1 == 0 && h.vms[id].state != Free ==> OwnPage(id, h.vms[id], hpa)
    case VmExit => h.vms[h.current].state != Free
    case _ => true
  }

  function Step(h: Hv, e: Event): (r: Hv)
    requires Shaped(h)
    ensures Shaped(r)
  {
    match e
    case Create(base, size, pc) => CreateVm(h, base, size, pc).0
    case Destroy(id) => DestroyVm(h, id).0
    case Start(id) => StartVm(h, id).0
    case Pause(id) => PauseVm(h, id).0
    case Map(id, gpa, hpa, flags) => MapPage(h, id, gpa, hpa, flags).0
    case Tick => Schedule(h)
    case VmExit => Exit(h)
  }
}
