/** The hypervisor's functions as the source writes them, over one global state object. */
module HypervisorCore {
  import opened Wrappers
  import opened Hypervisor

  class HypervisorState {
    var vms: seq<Vm>
    var spt: seq<Table>
    var currentVm: nat
    var vmCount: int
    var rrNext: nat
    const ram: array<int>

    ghost predicate Valid()
      reads this, ram
    {
      ram.Length == TOTAL_MEM_SIZE && |vms| == MAX_VMS && |spt| == MAX_VMS && currentVm < MAX_VMS && rrNext < MAX_VMS
    }

    ghost function Value(): (h: Hv)
      requires Valid()
      reads this, ram
      ensures Shaped(h)
    {
      Hv(vms, spt, currentVm, vmCount, rrNext, ram[..])
    }

    /** hv_init: all state zero. */
    constructor (memory: array<int>)
      requires memory.Length == TOTAL_MEM_SIZE
      ensures Valid() && ram == memory && Value() == Boot(memory[..])
    {
      ram := memory;
      vms := seq(MAX_VMS, (i: int) => Vm(Free, 0, 0));
      spt := seq(MAX_VMS, (i: int) => seq(PT_ENTRIES, (j: int) => Spte(0, 0)));
      currentVm, vmCount, rrNext := 0, 0, 0;
    }

    // ---- vm_memory.c

    /** Zero the bytes of a memory region; a store outside RAM leaves RAM alone. */
    method Zero(a: Uint32, n: Uint32)
      requires Valid()
      modifies ram
      ensures Valid() && Value() == old(Value()).(ram := Wipe(old(ram[..]), a, n))
    {
      var i := 0;
      while i < n
        invariant 0 <= i <= n
        invariant forall k :: 0 <= k < ram.Length ==> ram[k] == if Covers(a, i, k) then 0 else old(ram[k])
      {
        var at := (a + i) % UINT32;
        if at < TOTAL_MEM_SIZE {
          ram[at] := 0;
        }
        i := i + 1;
      }
    }

    method VmAllocMemory(id: nat) returns (r: int)
      requires Valid()
      modifies this`spt, ram
      ensures Valid() && (Value(), r) == AllocMemory(old(Value()), id)
    {
      if id >= MAX_VMS {
        return -1;
      }
      var vm := vms[id];
      if (vm.memBase + vm.memSize) % UINT32 > TOTAL_MEM_SIZE {
        return -2;
      }
      if vm.memSize > PT_ENTRIES * PAGE_SIZE {
        return -3;
      }
      if vm.memBase < HV_SIZE {
        return -4;
      }
      Zero(vm.memBase, vm.memSize / 4 * 4);
      var page := 0;
      var table := spt[id];
      while page < PT_ENTRIES
        invariant 0 <= page <= PT_ENTRIES
        invariant forall k :: 0 <= k < page ==> table[k] == IdentityTable(vm.memBase, vm.memSize)[k]
      {
        var gpa := page * PAGE_SIZE;
        var hpa := (vm.memBase + gpa) % UINT32;
        if gpa >= vm.memSize {
          table := table[page := Spte(0, 0)];
        } else {
          table := table[page := Spte(hpa, PTE_VALID + PTE_RWX + PTE_GUEST)];
        }
        page := page + 1;
      }
      assert table == IdentityTable(vm.memBase, vm.memSize);
      spt := spt[id := table];
      r := 0;
    }

    method VmMapPage(id: nat, gpa: Uint32, hpa: Uint32, flags: Uint32) returns (r: int)
      requires Valid()
      modifies this`spt
      ensures Valid() && (Value(), r) == MapPage(old(Value()), id, gpa, hpa, flags)
    {
      if id >= MAX_VMS {
        return -1;
      }
      if gpa % PAGE_SIZE != 0 {
        return -2;
      }
      if hpa % PAGE_SIZE != 0 {
        return -3;
      }
      var page := gpa / PAGE_SIZE;
      if page >= PT_ENTRIES {
        return -4;
      }
      if hpa < HV_SIZE {
        return -5;
      }
      var other := 0;
      while other < MAX_VMS
        invariant 0 <= other <= MAX_VMS
        invariant forall o :: 0 <= o < other && o != id ==> !Owns(vms[o], hpa)
      {
        if other != id && vms[other].state != Free
           && vms[other].memBase <= hpa && hpa < (vms[other].memBase + vms[other].memSize) % UINT32 {
          assert Owns(vms[other], hpa);
          return -6;
        }
        other := other + 1;
      }
      spt := spt[id := spt[id][page := Spte(hpa, SetValid(flags))]];
      r := 0;
    }

    method VmTranslate(id: nat, gpa: Uint32) returns (hpa: Option<int>)
      requires Valid()
      ensures hpa == TranslateGpa(Value(), id, gpa)
    {
      var page, offset := gpa / PAGE_SIZE, gpa % PAGE_SIZE;
      if id >= MAX_VMS || page >= PT_ENTRIES {
        return None;
      }
      if !IsMapped(spt[id][page]) {
        return None;
      }
      hpa := Some((spt[id][page].hpa + offset) % UINT32);
    }

    // ---- vm_manager.c

    method VmCreate(memBase: Uint32, memSize: Uint32, entryPc: Uint32) returns (r: int)
      requires Valid()
      modifies this`vms, this`spt, this`vmCount, ram
      ensures Valid() && (Value(), r) == CreateVm(old(Value()), memBase, memSize, entryPc)
    {
      if memSize == 0 || memSize > GUEST_MEM_PER_VM {
        return -1;
      }
      if entryPc >= memSize {
        return -2;
      }
      var slot := 0;
      while slot < MAX_VMS && vms[slot].state != Free
        invariant 0 <= slot <= MAX_VMS
        invariant forall j :: 0 <= j < slot ==> vms[j].state != Free
      {
        slot := slot + 1;
      }
      assert slot == FirstFree(vms);
      if slot == MAX_VMS {
        return -3;
      }
      var base := if memBase != 0 then memBase else Window(slot);
      vms := vms[slot := Vm(Created, base, memSize)];
      if base < HV_SIZE {
        return -4;
      }
      if (base + memSize) % UINT32 > TOTAL_MEM_SIZE {
        return -5;
      }
      var a := VmAllocMemory(slot);
      if a < 0 {
        assert false;
      }
      vmCount := (vmCount + 1) % 256;
      r := slot;
    }

    method VmDestroy(id: nat) returns (r: int)
      requires Valid()
      modifies this`vms, this`vmCount, ram
      ensures Valid() && (Value(), r) == DestroyVm(old(Value()), id)
    {
      if id >= MAX_VMS {
        return -1;
      }
      if vms[id].state == Free {
        return -2;
      }
      if vms[id].state == Running {
        return -3;
      }
      Zero(vms[id].memBase, vms[id].memSize);
      vms := vms[id := vms[id].(state := Free)];
      vmCount := (vmCount - 1) % 256;
      r := 0;
    }

    method VmStart(id: nat) returns (r: int)
      requires Valid()
      modifies this`vms
      ensures Valid() && (Value(), r) == StartVm(old(Value()), id)
    {
      if id >= MAX_VMS {
        return -1;
      }
      if vms[id].state == Free {
        return -2;
      }
      if vms[id].state == Running {
        return -3;
      }
      vms := vms[id := vms[id].(state := Ready)];
      r := 0;
    }

    method VmPause(id: nat) returns (r: int)
      requires Valid()
      modifies this`vms
      ensures Valid() && (Value(), r) == PauseVm(old(Value()), id)
    {
      if id >= MAX_VMS {
        return -1;
      }
      var st := vms[id].state;
      if st == Free {
        return -2;
      }
      if st == Running || st == Ready {
        vms := vms[id := vms[id].(state := Blocked)];
        return 0;
      }
      r := -3;
    }

    // ---- hv_core.c

    method HvPickNextVm() returns (next: int)
      requires Valid()
      modifies this`rrNext
      ensures Valid() && next == (match Pick(vms, old(rrNext)) case None => -1 case Some(p) => p.0)
      ensures rrNext == (match Pick(vms, old(rrNext)) case None => old(rrNext) case Some(p) => p.1)
    {
      var i := 0;
      while i < MAX_VMS
        invariant 0 <= i <= MAX_VMS && rrNext == old(rrNext)
        invariant forall k :: 0 <= k < i ==> !Runnable(vms[Around(MAX_VMS, rrNext, k)])
      {
        var candidate := (rrNext + i) % MAX_VMS;
        assert candidate == Around(MAX_VMS, rrNext, i);
        if vms[candidate].state == Ready || vms[candidate].state == Running {
          rrNext := (candidate + 1) % MAX_VMS;
          return candidate;
        }
        i := i + 1;
      }
      next := -1;
    }

    /** vm_schedule_next and one round of the loop in hv_main; an idle round leaves the table as it is. */
    method VmScheduleNext()
      requires Valid()
      modifies this`vms, this`rrNext, this`currentVm
      ensures Valid() && Value() == Schedule(old(Value()))
    {
      if vms[currentVm].state == Running {
        vms := vms[currentVm := vms[currentVm].(state := Ready)];
      }
      var next := HvPickNextVm();
      if next < 0 {
        return;
      }
      if vms[next].state == Ready {
        vms := vms[next := vms[next].(state := Running)];
      }
      currentVm := next;
    }

    /** The hypercall VM_EXIT. */
    method VmExitCall()
      requires Valid()
      modifies this`vms, this`rrNext, this`currentVm
      ensures Valid() && Value() == Exit(old(Value()))
    {
      vms := vms[currentVm := vms[currentVm].(state := Halted)];
      VmScheduleNext();
    }
  }
}
