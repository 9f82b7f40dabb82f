/** What every run of the hypervisor keeps: isolation, the VM count, one running VM, fairness. */
module HypervisorProofs {
  import opened Wrappers
  import opened Bits
  import opened Hypervisor

  // ---- Counting

  lemma {:induction false} CountUpdate(vms: seq<Vm>, i: nat, vm: Vm)
    requires i < |vms|
    ensures LiveCount(vms[i := vm]) + (if vms[i].state != Free then 1 else 0) == LiveCount(vms) + (if vm.state != Free
            then 1 else 0)
  {
    if i > 0 {
      CountUpdate(vms[1..], i - 1, vm);
      assert vms[i := vm][1..] == vms[1..][i - 1 := vm];
    } else {
      assert vms[i := vm][1..] == vms[1..];
    }
  }

  // ---- Every event keeps the invariant

  lemma ExtentCovers(v: nat, vm: Vm)
    requires v < MAX_VMS && 0 < vm.memSize <= GUEST_MEM_PER_VM
    ensures vm.memSize <= Rounded(vm.memSize) <= Extent(v, vm)
  {
  }

  lemma IdentityConfined(v: nat, vm: Vm, k: nat)
    requires v < MAX_VMS && 0 < vm.memSize <= GUEST_MEM_PER_VM && Placed(v, vm) && k < PT_ENTRIES
    ensures var e := IdentityTable(vm.memBase, vm.memSize)[k]; IsMapped(e) ==> OwnPage(v, vm, e.hpa)
  {
    ExtentCovers(v, vm);
    PageBelow(k * PAGE_SIZE, vm.memSize);
  }

  lemma PageBelow(x: nat, size: nat)
    requires 0 < size <= GUEST_MEM_PER_VM
    ensures x < Rounded(size) <==> x / PAGE_SIZE * PAGE_SIZE < size
    ensures x < Rounded(size) ==> x / PAGE_SIZE < PT_ENTRIES && x / PAGE_SIZE * PAGE_SIZE + PAGE_SIZE <= Rounded(size)
  {
  }

  /** A VM that finds room passes the checks of vm_create. */
  lemma RoomSuffices(h: Hv, base: Uint32, size: Uint32, pc: Uint32)
    requires Shaped(h) && !Refused(h, size, pc)
    requires HasRoom(h, FirstFree(h.vms), Vm(Created, ChosenBase(base, FirstFree(h.vms)), size))
    ensures var slot := FirstFree(h.vms);
            var vm := Vm(Created, ChosenBase(base, slot), size);
            CreateVm(h, base, size, pc)
            == (Hv(h.vms[slot := vm], h.tables[slot := IdentityTable(vm.memBase, size)], h.current,
                (h.count + 1) % 256, h.rrNext,
                   Wipe(h.ram, vm.memBase, size / 4 * 4)), slot)
  {
    var slot := FirstFree(h.vms);
    ExtentCovers(slot, Vm(Created, ChosenBase(base, slot), size));
    hide IdentityTable, Wipe, Extent;
  }

  lemma ScatteredNew(h: Hv, slot: nat, vm: Vm)
    requires Shaped(h) && slot < MAX_VMS && Scattered(h.vms) && HasRoom(h, slot, vm)
    ensures Scattered(h.vms[slot := vm])
  {
    hide Extent, Placed;
  }

  lemma NewConfined(h: Hv, slot: nat, vm: Vm)
    requires Shaped(h) && slot < MAX_VMS && Placed(slot, vm) && 0 < vm.memSize <= GUEST_MEM_PER_VM
    requires h.vms[slot] == vm && h.tables[slot] == IdentityTable(vm.memBase, vm.memSize)
    ensures Confined(h, slot)
  {
    hide IdentityTable, OwnPage, Placed;
    forall k: nat | k < PT_ENTRIES && IsMapped(h.tables[slot][k])
      ensures OwnPage(slot, vm, h.tables[slot][k].hpa)
    {
      IdentityConfined(slot, vm, k);
    }
  }

  lemma CreateKeeps(h: Hv, base: Uint32, size: Uint32, pc: Uint32)
    requires Inv(h) && Legal(h, Create(base, size, pc))
    ensures Inv(CreateVm(h, base, size, pc).0)
  {
    if !Refused(h, size, pc) {
      var slot := FirstFree(h.vms);
      var vm := Vm(Created, ChosenBase(base, slot), size);
      RoomSuffices(h, base, size, pc);
      CountUpdate(h.vms, slot, vm);
      ScatteredNew(h, slot, vm);
      hide IdentityTable, LiveCount, Wipe, CreateVm, Confined, Scattered, Apart, FirstFree, Placed;
      var h' := CreateVm(h, base, size, pc).0;
      NewConfined(h', slot, vm);
      forall v: nat | v < MAX_VMS && h'.vms[v].state != Free ensures Confined(h', v) {
        if v != slot { ConfinedSame(h, h', v); }
      }
    }
  }

  /** Only live VMs, their bases and sizes matter. */
  lemma ScatteredSame(vms: seq<Vm>, vms': seq<Vm>)
    requires Scattered(vms) && |vms'| == |vms|
    requires forall v :: 0 <= v < |vms| && vms'[v].state != Free ==>
               vms[v].state != Free && vms'[v].memBase == vms[v].memBase && vms'[v].memSize == vms[v].memSize
    ensures Scattered(vms')
  {
  }

  /** A table stays confined when its VM's base and size stay. */
  lemma ConfinedSame(h: Hv, h': Hv, v: nat)
    requires Shaped(h) && Shaped(h') && v < MAX_VMS && Confined(h, v) && h'.tables[v] == h.tables[v]
    requires h'.vms[v].memBase == h.vms[v].memBase && h'.vms[v].memSize == h.vms[v].memSize
    ensures Confined(h', v)
  {
  }

  lemma AllConfinedSame(h: Hv, h': Hv)
    requires Inv(h) && Shaped(h') && h'.tables == h.tables
    requires forall v :: 0 <= v < MAX_VMS && h'.vms[v].state != Free ==>
               h.vms[v].state != Free && h'.vms[v].memBase == h.vms[v].memBase && h'.vms[v].memSize == h.vms[v].memSize
    ensures Scattered(h'.vms) && forall v :: 0 <= v < MAX_VMS && h'.vms[v].state != Free ==> Confined(h', v)
  {
    hide Confined, LiveCount, Scattered;
    ScatteredSame(h.vms, h'.vms);
    forall v: nat | v < MAX_VMS && h'.vms[v].state != Free ensures Confined(h', v) { ConfinedSame(h, h', v); }
  }

  lemma StateKeeps(h: Hv, id: nat, s: VmState)
    requires Inv(h) && id < MAX_VMS && h.vms[id].state != Free && s != Free && (s == Running ==> id == h.current)
    ensures Inv(SetState(h, id, s))
  {
    CountUpdate(h.vms, id, h.vms[id].(state := s));
    hide LiveCount, Confined, Scattered;
    AllConfinedSame(h, SetState(h, id, s));
  }

  lemma DestroyKeeps(h: Hv, id: nat)
    requires Inv(h)
    ensures Inv(DestroyVm(h, id).0)
  {
    if id < MAX_VMS { CountUpdate(h.vms, id, h.vms[id].(state := Free)); }
    hide LiveCount, Wipe, Confined, Scattered;
    AllConfinedSame(h, DestroyVm(h, id).0);
  }

  lemma MapKeeps(h: Hv, id: nat, gpa: Uint32, hpa: Uint32, flags: Uint32)
    requires Inv(h) && Legal(h, Map(id, gpa, hpa, flags))
    ensures Inv(MapPage(h, id, gpa, hpa, flags).0)
  {
    hide LiveCount, OwnedByOther, Extent, Scattered;
  }

  lemma ScheduleKeeps(h: Hv)
    requires Inv(h)
    ensures Inv(Schedule(h))
  {
    hide LiveCount, Distance, Around, Confined, Scattered;
    var h1 := if h.vms[h.current].state == Running then SetState(h, h.current, Ready) else h;
    if h.vms[h.current].state == Running { StateKeeps(h, h.current, Ready); }
    assert forall v :: 0 <= v < MAX_VMS ==> h1.vms[v].state != Running;
    if Pick(h1.vms, h1.rrNext).Some? {
      var (v, next) := Pick(h1.vms, h1.rrNext).value;
      var h2 := h1.(current := v, rrNext := next);
      AllConfinedSame(h1, h2);
      StateKeeps(h2, v, Running);
    }
  }

  lemma StepKeeps(h: Hv, e: Event)
    requires Inv(h) && Legal(h, e)
    ensures Inv(Step(h, e))
  {
    assert Shaped(h);
    hide Inv, CreateVm, DestroyVm, MapPage, Schedule;
    match e
    case Create(base, size, pc) => CreateKeeps(h, base, size, pc);
    case Destroy(id) => DestroyKeeps(h, id);
    case Start(id) => StartKeeps(h, id);
    case Pause(id) => PauseKeeps(h, id);
    case Map(id, gpa, hpa, flags) => MapKeeps(h, id, gpa, hpa, flags);
    case Tick => ScheduleKeeps(h);
    case VmExit =>
      HaltKeeps(h);
      ScheduleKeeps(SetState(h, h.current, Halted));
  }

  lemma HaltKeeps(h: Hv)
    requires Inv(h) && h.vms[h.current].state != Free
    ensures Inv(SetState(h, h.current, Halted))
  {
    StateKeeps(h, h.current, Halted);
  }

  lemma StartKeeps(h: Hv, id: nat)
    requires Inv(h)
    ensures Inv(StartVm(h, id).0)
  {
    if id < MAX_VMS && h.vms[id].state != Free { StateKeeps(h, id, Ready); }
  }

  lemma PauseKeeps(h: Hv, id: nat)
    requires Inv(h)
    ensures Inv(PauseVm(h, id).0)
  {
    if id < MAX_VMS && h.vms[id].state != Free { StateKeeps(h, id, Blocked); }
  }

  ghost predicate LegalRun(h: Hv, es: seq<Event>)
    requires Inv(h)
    decreases es
  {
    es != [] ==> Legal(h, es[0]) && (StepKeeps(h, es[0]); LegalRun(Step(h, es[0]), es[1..]))
  }

  ghost function Run(h: Hv, es: seq<Event>): (r: Hv)
    requires Inv(h) && LegalRun(h, es)
    ensures Inv(r)
    decreases es
  {
    if es == [] then h else StepKeeps(h, es[0]); Run(Step(h, es[0]), es[1..])
  }

  lemma BootKeeps(ram: Ram)
    ensures Inv(Boot(ram))
  {
    NoneLive(Boot(ram).vms);
  }

  lemma {:induction false} NoneLive(vms: seq<Vm>)
    requires forall i :: 0 <= i < |vms| ==> vms[i].state == Free
    ensures LiveCount(vms) == 0
  {
    if vms != [] { NoneLive(vms[1..]); }
  }

  /** A legal history from start-up, and the state it leads to. */
  ghost predicate LegalHistory(ram: Ram, es: seq<Event>) { BootKeeps(ram); LegalRun(Boot(ram), es) }

  ghost function After(ram: Ram, es: seq<Event>): (r: Hv)
    requires LegalHistory(ram, es)
    ensures Inv(r)
  {
    BootKeeps(ram);
    Run(Boot(ram), es)
  }

  // ---- Isolation

  /** Every address that a live VM reaches belongs to it and lies in RAM, above the hypervisor. */
  lemma TranslationConfined(h: Hv, v: nat, gpa: Uint32)
    requires Inv(h) && v < MAX_VMS && h.vms[v].state != Free && TranslateGpa(h, v, gpa).Some?
    ensures var a := TranslateGpa(h, v, gpa).value; Belongs(v, h.vms[v], a) && HV_SIZE <= a < TOTAL_MEM_SIZE
  {
    assert Confined(h, v);
    assert OwnPage(v, h.vms[v], h.tables[v][gpa / PAGE_SIZE].hpa);
    hide LiveCount, Inv, Extent;
  }

  /** In every reachable state two live VMs never reach the same host address, no live VM reaches the
      hypervisor, at most the VM on the CPU is running, and vm_count is the number of slots in use. */
  lemma Isolation(ram: Ram, es: seq<Event>, v: nat, w: nat, x: Uint32, y: Uint32)
    requires LegalHistory(ram, es) && v < MAX_VMS && w < MAX_VMS && v != w
    ensures var h := After(ram, es);
            && h.count == LiveCount(h.vms)
            && (h.vms[v].state == Running ==> v == h.current)
            && (h.vms[v].state != Free && TranslateGpa(h, v, x).Some? ==>
                HV_SIZE <= TranslateGpa(h, v, x).value < TOTAL_MEM_SIZE)
            && (h.vms[v].state != Free && h.vms[w].state != Free && TranslateGpa(h, v, x).Some?
                && TranslateGpa(h, w, y).Some? ==>
                  TranslateGpa(h, v, x) != TranslateGpa(h, w, y))
  {
    var h := After(ram, es);
    BootKeeps(ram);
    if h.vms[v].state != Free && TranslateGpa(h, v, x).Some? { TranslationConfined(h, v, x); }
    if h.vms[w].state != Free && TranslateGpa(h, w, y).Some? { TranslationConfined(h, w, y); }
    if h.vms[v].state != Free && h.vms[w].state != Free { LiveApart(h, v, w); }
    hide Inv, TranslateGpa, LiveCount, Extent;
  }

  lemma LiveApart(h: Hv, v: nat, w: nat)
    requires Inv(h) && v < MAX_VMS && w < MAX_VMS && v != w && h.vms[v].state != Free && h.vms[w].state != Free
    ensures Apart(v, h.vms[v], w, h.vms[w])
  {
  }

  /** What an event may change in guest memory: nothing that belongs to a VM that is live before and is not
      destroyed by it. */
  lemma MemoryKept(h: Hv, e: Event, v: nat, a: int)
    requires Inv(h) && Legal(h, e) && v < MAX_VMS && h.vms[v].state != Free && Belongs(v, h.vms[v], a)
             && e != Destroy(v)
    ensures 0 <= a < TOTAL_MEM_SIZE && Step(h, e).ram[a] == h.ram[a]
  {
    assert Confined(h, v);
    if e.Destroy? && e.id < MAX_VMS && h.vms[e.id].state != Free {
      assert Confined(h, e.id);
      ExtentCovers(e.id, h.vms[e.id]);
      LiveApart(h, v, e.id);
    } else if e.Create? && !Refused(h, e.memSize, e.entryPc) {
      var slot := FirstFree(h.vms);
      RoomSuffices(h, e.memBase, e.memSize, e.entryPc);
      ExtentCovers(slot, Vm(Created, ChosenBase(e.memBase, slot), e.memSize));
    }
    hide Inv, LiveCount, IdentityTable, Pick, OwnedByOther, Extent;
  }

  /** A fresh VM's memory reads zero (whole words), and so does all the memory of a destroyed one. */
  lemma WipedMemory(h: Hv, e: Event, a: int)
    requires Inv(h) && Legal(h, e)
    ensures e.Create? && CreateVm(h, e.memBase, e.memSize, e.entryPc).1 >= 0 ==>
              var v := FirstFree(h.vms);
              CreateVm(h, e.memBase, e.memSize, e.entryPc).1 == v < MAX_VMS
              && (0 <= a - Step(h, e).vms[v].memBase < e.memSize / 4 * 4 ==>
                   a < TOTAL_MEM_SIZE && Step(h, e).ram[a] == 0)
    ensures e.Destroy? && DestroyVm(h, e.id).1 == 0 ==>
              (0 <= a - h.vms[e.id].memBase < h.vms[e.id].memSize ==> a < TOTAL_MEM_SIZE && Step(h, e).ram[a] == 0)
  {
    if e.Destroy? && e.id < MAX_VMS && h.vms[e.id].state != Free {
      assert Confined(h, e.id);
      ExtentCovers(e.id, h.vms[e.id]);
    } else if e.Create? && !Refused(h, e.memSize, e.entryPc) {
      var slot := FirstFree(h.vms);
      RoomSuffices(h, e.memBase, e.memSize, e.entryPc);
      ExtentCovers(slot, Vm(Created, ChosenBase(e.memBase, slot), e.memSize));
    }
    hide Inv, LiveCount, IdentityTable, Extent;
  }

  // ---- Where the guards matter

  /** vm_create keeps vm_count right exactly when it refuses the request outright or the base passes the last two
      checks: the error returns -4 and -5 leave the slot in use but uncounted. The sum they check wraps around. */
  lemma CreateCountsIff(h: Hv, base: Uint32, size: Uint32, pc: Uint32)
    requires Inv(h)
    ensures var h' := CreateVm(h, base, size, pc).0;
            h'.count == LiveCount(h'.vms)
            <==> Refused(h, size, pc)
                 || var b := ChosenBase(base, FirstFree(h.vms)); b >= HV_SIZE && End(b, size) <= TOTAL_MEM_SIZE
  {
    if !Refused(h, size, pc) {
      var slot := FirstFree(h.vms);
      CountUpdate(h.vms, slot, Vm(Created, ChosenBase(base, slot), size));
    }
    hide Inv, LiveCount, IdentityTable, Wipe;
  }

  /** A mapping that vm_map_page accepts keeps a live VM confined exactly when its target page belongs to the VM. */
  lemma MapConfinedIff(h: Hv, id: nat, gpa: Uint32, hpa: Uint32, flags: Uint32)
    requires Inv(h) && id < MAX_VMS && h.vms[id].state != Free && MapPage(h, id, gpa, hpa, flags).1 == 0
    ensures Confined(MapPage(h, id, gpa, hpa, flags).0, id) <==> OwnPage(id, h.vms[id], hpa)
  {
    var k, t := gpa / PAGE_SIZE, MapPage(h, id, gpa, hpa, flags).0.tables[id];
    assert t[k] == Spte(hpa, SetValid(flags)) && IsMapped(t[k]);
    assert Confined(h, id);
  }

  /** VM_EXIT keeps the count right exactly when the VM on the CPU has not been destroyed there. */
  lemma ExitCountsIff(h: Hv)
    requires Inv(h)
    ensures Exit(h).count == LiveCount(Exit(h).vms) <==> h.vms[h.current].state != Free
  {
    hide Distance, Around;
    var h1 := SetState(h, h.current, Halted);
    CountUpdate(h.vms, h.current, h1.vms[h.current]);
    var p := Pick(h1.vms, h1.rrNext);
    if p.Some? { CountUpdate(h1.vms, p.value.0, h1.vms[p.value.0].(state := Running)); }
  }

  /** An event keeps the invariant exactly when it is legal. */
  lemma StepKeepsIff(h: Hv, e: Event)
    requires Inv(h)
    ensures Inv(Step(h, e)) <==> Legal(h, e)
  {
    var h' := Step(h, e);
    hide Inv, LiveCount, MapPage, Exit, Confined, CreateVm, HasRoom, Refused;
    if Legal(h, e) {
      StepKeeps(h, e);
    } else if e.Create? {
      CreateBreaks(h, e.memBase, e.memSize, e.entryPc);
    } else if e.Map? {
      MapConfinedIff(h, e.id, e.gpa, e.hpa, e.flags);
      StillLive(h, e.id, e.gpa, e.hpa, e.flags);
      InvConfined(h', e.id);
    } else {
      ExitCountsIff(h);
      InvCounts(h');
    }
  }

  /** A new VM without room is not counted, or lies where it should not. */
  lemma CreateBreaks(h: Hv, base: Uint32, size: Uint32, pc: Uint32)
    requires Inv(h) && !Legal(h, Create(base, size, pc))
    ensures !Inv(CreateVm(h, base, size, pc).0)
  {
    var slot := FirstFree(h.vms);
    var vm := Vm(Created, ChosenBase(base, slot), size);
    CreateCountsIff(h, base, size, pc);
    var h' := CreateVm(h, base, size, pc).0;
    assert h'.vms == h.vms[slot := vm] by { hide Wipe, IdentityTable, LiveCount, Inv; }
    if Placed(slot, vm) {
      var w :| 0 <= w < MAX_VMS && w != slot && h.vms[w].state != Free && !Apart(slot, vm, w, h.vms[w]);
      if Inv(h') { LiveApart(h', slot, w); }
    } else {
      InvConfined(h', slot);
    }
  }

  lemma StillLive(h: Hv, id: nat, gpa: Uint32, hpa: Uint32, flags: Uint32)
    requires Shaped(h)
    ensures MapPage(h, id, gpa, hpa, flags).0.vms == h.vms
  {
    hide OwnedByOther;
  }

  lemma InvConfined(h: Hv, id: nat)
    requires Shaped(h) && id < MAX_VMS && h.vms[id].state != Free && !Confined(h, id)
    ensures !Inv(h)
  {
  }

  lemma InvCounts(h: Hv)
    ensures Shaped(h) && h.count != LiveCount(h.vms) ==> !Inv(h)
  {
  }

  // ---- The bases that vm_create chooses itself

  predicate AutoBases(h: Hv)
    requires Shaped(h)
  {
    forall v :: 0 <= v < MAX_VMS && h.vms[v].state != Free ==> h.vms[v].memBase == Window(v)
  }

  /** As long as every VM is created without a base, every creation finds room. */
  lemma AutoCreates(h: Hv, e: Event)
    requires Inv(h) && AutoBases(h) && if e.Create? then e.memBase == 0 else Legal(h, e)
    ensures Legal(h, e) && AutoBases(Step(h, e))
  {
    assert Shaped(h);
    hide LiveCount, Wipe, IdentityTable, OwnedByOther, Confined, Extent, HasRoom, Inv, Schedule, MapPage, FirstFree;
    match e
    case Create(_, size, pc) =>
      AutoRoom(h);
      if !Refused(h, size, pc) { RoomSuffices(h, 0, size, pc); }
    case Tick => AutoSchedules(h);
    case VmExit => AutoSchedules(SetState(h, h.current, Halted));
    case Map(id, gpa, hpa, flags) => StillLive(h, id, gpa, hpa, flags);
    case Destroy(id) =>
    case Start(id) =>
    case Pause(id) =>
  }

  /** Scheduling revives no VM and moves none. */
  lemma AutoSchedules(h: Hv)
    requires Shaped(h)
    ensures AutoBases(h) ==> AutoBases(Schedule(h))
  {
    hide Distance, Around;
  }

  lemma AutoRoom(h: Hv)
    requires Shaped(h) && AutoBases(h)
    ensures var slot := FirstFree(h.vms);
            slot < MAX_VMS ==> forall size: Uint32 :: HasRoom(h, slot, Vm(Created, Window(slot), size))
  {
  }

  /** The window of a free slot may be mapped into any table. */
  lemma FreeWindowMaps(h: Hv, v: nat, gpa: Uint32, flags: Uint32)
    requires Inv(h) && AutoBases(h) && v < MAX_VMS && gpa % PAGE_SIZE == 0 && gpa / PAGE_SIZE < PT_ENTRIES
             && FirstFree(h.vms) < MAX_VMS
    ensures var w := FirstFree(h.vms);
            MapPage(h, v, gpa, Window(w), flags)
            == (h.(tables := h.tables[v := h.tables[v][gpa / PAGE_SIZE := Spte(Window(w), SetValid(flags))]]), 0)
  {
    var w := FirstFree(h.vms);
    forall o | 0 <= o < MAX_VMS && o != v
      ensures !Owns(h.vms[o], Window(w))
    {
      if h.vms[o].state != Free { assert Confined(h, o); }
    }
    hide Inv, LiveCount, AutoBases, Confined;
  }

  /** A live VM is given a page of a free slot's window, and then a VM is created there: both reach one address. */
  lemma ForeignPageIsShared(h: Hv, v: nat, gpa: Uint32, flags: Uint32, size: Uint32, pc: Uint32)
    requires Inv(h) && AutoBases(h) && v < MAX_VMS && h.vms[v].state != Free
    requires gpa % PAGE_SIZE == 0 && gpa / PAGE_SIZE < PT_ENTRIES && !Refused(h, size, pc)
    ensures var w := FirstFree(h.vms);
            var (h1, r1) := MapPage(h, v, gpa, Window(w), flags);
            var (h2, r2) := CreateVm(h1, 0, size, pc);
            && r1 == 0 && r2 == w && h2.vms[v].state != Free && h2.vms[w].state != Free && v != w
            && TranslateGpa(h2, v, gpa) == TranslateGpa(h2, w, 0) == Some(Window(w))
  {
    hide LiveCount, Wipe, Confined, Scattered, IdentityTable, OwnedByOther, HasRoom;
    var w := FirstFree(h.vms);
    FreeWindowMaps(h, v, gpa, flags);
    var h1 := MapPage(h, v, gpa, Window(w), flags).0;
    assert h1.vms == h.vms && Shaped(h1);
    hide MapPage;
    AutoRoom(h1);
    RoomSuffices(h1, 0, size, pc);
    IdentityAt(Vm(Created, Window(w), size), 0);
    hide Inv, AutoBases, CreateVm, FirstFree, Refused;
  }

  /** Create, map, create: a run from start-up after which the VMs 0 and 1 share the host address 0x20000. */
  lemma SharedPageRun(ram: Ram)
    ensures var h1 := Step(Boot(ram), Create(0, 0x1_0000, 0));
            var h3 := Step(Step(h1, Map(0, 0, 0x2_0000, 0)), Create(0, 0x1_0000, 0));
            && h3.vms[0].state != Free && h3.vms[1].state != Free
            && TranslateGpa(h3, 0, 0) == TranslateGpa(h3, 1, 0) == Some(0x2_0000)
  {
    var e := Create(0, 0x1_0000, 0);
    FirstVm(ram);
    hide Inv, Boot, Wipe, TranslateGpa, MapPage, CreateVm, AutoBases, FirstFree;
    ForeignPageIsShared(Step(Boot(ram), e), 0, 0, 0, 0x1_0000, 0);
  }

  lemma FirstVm(ram: Ram)
    ensures var h := Step(Boot(ram), Create(0, 0x1_0000, 0));
            Inv(h) && AutoBases(h) && h.vms[0].state != Free && FirstFree(h.vms) == 1
  {
    var h0, e := Boot(ram), Create(0, 0x1_0000, 0);
    BootKeeps(ram);
    AutoCreates(h0, e);
    StepKeeps(h0, e);
    hide Inv, Wipe, IdentityTable, LiveCount;
    assert Step(h0, e).vms == [Vm(Created, Window(0), 0x1_0000)] + h0.vms[1..];
  }

  // ---- Explicit bases: when fresh VMs are isolated, and where the checks wrap around

  /** The table still is the one that vm_create set up. */
  predicate Fresh(h: Hv, v: nat)
    requires Shaped(h) && v < MAX_VMS
  {
    0 < h.vms[v].memSize <= GUEST_MEM_PER_VM && h.tables[v] == IdentityTable(h.vms[v].memBase, h.vms[v].memSize)
  }

  lemma CreatedFresh(h: Hv, base: Uint32, size: Uint32, pc: Uint32)
    requires Shaped(h) && CreateVm(h, base, size, pc).1 >= 0
    ensures var v, h' := FirstFree(h.vms), CreateVm(h, base, size, pc).0;
            v < MAX_VMS && Fresh(h', v) && h'.vms[v] == Vm(Created, ChosenBase(base, v), size)
            && HV_SIZE <= h'.vms[v].memBase && End(h'.vms[v].memBase, size) <= TOTAL_MEM_SIZE
  {
    hide IdentityTable, Wipe;
  }

  lemma FreshTranslates(h: Hv, v: nat, x: Uint32)
    requires Shaped(h) && v < MAX_VMS && Fresh(h, v)
    ensures TranslateGpa(h, v, x) == if x < Rounded(h.vms[v].memSize) then Some((h.vms[v].memBase + x) % UINT32)
            else None
  {
    var k, vm := x / PAGE_SIZE, h.vms[v];
    PageBelow(x, vm.memSize);
    if k < PT_ENTRIES {
      IdentityAt(vm, k);
      if k * PAGE_SIZE < vm.memSize { AddOffset(vm.memBase, k * PAGE_SIZE, x % PAGE_SIZE); }
    }
    hide IdentityTable, Rounded;
  }

  lemma IdentityAt(vm: Vm, k: nat)
    requires k < PT_ENTRIES
    ensures IdentityTable(vm.memBase, vm.memSize)[k]
         == if k * PAGE_SIZE < vm.memSize
             then Spte((vm.memBase + k * PAGE_SIZE) % UINT32, PTE_VALID + PTE_RWX + PTE_GUEST) else Spte(0, 0)
  {
  }

  lemma AddOffset(a: Uint32, b: nat, c: nat)
    requires b + c < UINT32
    ensures ((a + b) % UINT32 + c) % UINT32 == (a + (b + c)) % UINT32
  {
    if a + b >= UINT32 { assert (a + b) % UINT32 == a + b - UINT32; }
  }

  /** Of two ranges of addresses around 2^32, neither begins in the other: they share no address. */
  lemma RangesApart(a: Uint32, m: nat, b: Uint32, n: nat, x: nat, y: nat)
    requires m <= 0x1_0000 && n <= 0x1_0000 && x < m && y < n
    requires (b - a) % UINT32 >= m && (a - b) % UINT32 >= n
    ensures (a + x) % UINT32 != (b + y) % UINT32
  {
    assert (b - a) % UINT32 == if b >= a then b - a else b - a + UINT32;
    assert (a - b) % UINT32 == if a >= b then a - b else a - b + UINT32;
    assert (a + x) % UINT32 == if a + x < UINT32 then a + x else a + x - UINT32;
    assert (b + y) % UINT32 == if b + y < UINT32 then b + y else b + y - UINT32;
  }

  lemma DistanceLeads(a: Uint32, b: Uint32)
    ensures (a + (b - a) % UINT32) % UINT32 == b
  {
    assert (b - a) % UINT32 == if b >= a then b - a else b - a + UINT32;
  }

  /** Two fresh VMs, with explicit bases or not, are isolated exactly when their memories, in whole pages from
      their bases on and around 2^32, do not overlap; vm_create does not check it. */
  lemma FreshIsolatedIff(h: Hv, v: nat, w: nat)
    requires Shaped(h) && v < MAX_VMS && w < MAX_VMS && Fresh(h, v) && Fresh(h, w)
    ensures var a, b := h.vms[v], h.vms[w];
            (forall x: Uint32, y: Uint32 {:trigger TranslateGpa(h, v, x), TranslateGpa(h, w, y)} ::
               TranslateGpa(h, v, x).Some? ==> TranslateGpa(h, v, x) != TranslateGpa(h, w, y))
            <==> (b.memBase - a.memBase) % UINT32 >= Rounded(a.memSize)
                 && (a.memBase - b.memBase) % UINT32 >= Rounded(b.memSize)
  {
    hide Fresh, TranslateGpa, Rounded;
    var a, b := h.vms[v], h.vms[w];
    var d, e := (b.memBase - a.memBase) % UINT32, (a.memBase - b.memBase) % UINT32;
    forall x: Uint32 ensures TranslateGpa(h, v, x) == if x < Rounded(a.memSize) then Some((a.memBase + x) % UINT32)
        else None {
      FreshTranslates(h, v, x);
    }
    forall y: Uint32 ensures TranslateGpa(h, w, y) == if y < Rounded(b.memSize) then Some((b.memBase + y) % UINT32)
        else None {
      FreshTranslates(h, w, y);
    }
    FreshSize(h, v);
    FreshSize(h, w);
    DistanceLeads(a.memBase, b.memBase);
    DistanceLeads(b.memBase, a.memBase);
    if d < Rounded(a.memSize) {
      assert TranslateGpa(h, v, d) == Some(b.memBase) == TranslateGpa(h, w, 0);
    } else if e < Rounded(b.memSize) {
      assert TranslateGpa(h, w, e) == Some(a.memBase) == TranslateGpa(h, v, 0);
    } else {
      forall x: Uint32, y: Uint32 | TranslateGpa(h, v, x).Some? && TranslateGpa(h, w, y).Some?
        ensures TranslateGpa(h, v, x) != TranslateGpa(h, w, y)
      {
        RangesApart(a.memBase, Rounded(a.memSize), b.memBase, Rounded(b.memSize), x, y);
      }
    }
  }

  lemma FreshSize(h: Hv, v: nat)
    requires Shaped(h) && v < MAX_VMS && Fresh(h, v)
    ensures 0x1_0000 >= Rounded(h.vms[v].memSize) >= h.vms[v].memSize > 0
  {
    hide IdentityTable;
  }

  /** A VM whose base passes the checks of vm_create has all its memory in RAM above the hypervisor exactly when
      base plus size stays below 2^32, where the sum in the checks wraps around. */
  lemma CreatedInsideIff(h: Hv, base: Uint32, size: Uint32, pc: Uint32)
    requires Shaped(h) && CreateVm(h, base, size, pc).1 >= 0
    ensures var v, h' := FirstFree(h.vms), CreateVm(h, base, size, pc).0;
            v < MAX_VMS
            && ((forall x: Uint32 {:trigger TranslateGpa(h', v, x)} :: x < size ==>
                   TranslateGpa(h', v, x).Some? && HV_SIZE <= TranslateGpa(h', v, x).value < TOTAL_MEM_SIZE)
                <==> ChosenBase(base, v) + size < UINT32)
  {
    CreatedFresh(h, base, size, pc);
    hide CreateVm, Fresh, TranslateGpa, Rounded;
    var v, h' := FirstFree(h.vms), CreateVm(h, base, size, pc).0;
    var b := h'.vms[v].memBase;
    FreshSize(h', v);
    forall x: Uint32 | x < size ensures TranslateGpa(h', v, x) == Some((b + x) % UINT32) { FreshTranslates(h', v, x); }
    if b + size >= UINT32 {
      assert TranslateGpa(h', v, 0) == Some(b);
    } else {
      assert End(b, size) == b + size;
    }
  }

  /** No address of a freshly created VM leads to the hypervisor exactly when its whole pages end by 2^32. */
  lemma OffHypervisorIff(h: Hv, base: Uint32, size: Uint32, pc: Uint32)
    requires Shaped(h) && CreateVm(h, base, size, pc).1 >= 0
    ensures var v, h' := FirstFree(h.vms), CreateVm(h, base, size, pc).0;
            v < MAX_VMS
            && ((forall x: Uint32 {:trigger TranslateGpa(h', v, x)} :: TranslateGpa(h', v, x).Some? ==>
                TranslateGpa(h', v, x).value >= HV_SIZE)
                <==> ChosenBase(base, v) + Rounded(size) <= UINT32)
  {
    CreatedFresh(h, base, size, pc);
    hide CreateVm, Fresh, TranslateGpa, Rounded;
    var v, h' := FirstFree(h.vms), CreateVm(h, base, size, pc).0;
    var b := h'.vms[v].memBase;
    FreshSize(h', v);
    forall x: Uint32 ensures TranslateGpa(h', v, x) == if x < Rounded(size) then Some((b + x) % UINT32) else None {
      FreshTranslates(h', v, x);
    }
    if b + Rounded(size) > UINT32 { assert TranslateGpa(h', v, UINT32 - b) == Some(0); }
  }

  /** The base 0xFFFF8000 with 64 KB passes every check: creating the VM zeroes the first 32 KB of the hypervisor,
      and the VM reaches it from guest address 0x8000 on. */
  lemma WrappedBaseFails(h: Hv, a: nat)
    requires Shaped(h) && FirstFree(h.vms) < MAX_VMS && a < 0x8000
    ensures var v, (h', r) := FirstFree(h.vms), CreateVm(h, 0xFFFF_8000, 0x1_0000, 0);
            r == v && TranslateGpa(h', v, 0x8000 + a) == Some(a) && h'.ram[a] == 0
  {
    var v, h' := FirstFree(h.vms), CreateVm(h, 0xFFFF_8000, 0x1_0000, 0).0;
    CreatedFresh(h, 0xFFFF_8000, 0x1_0000, 0);
    FreshTranslates(h', v, 0x8000 + a);
    hide IdentityTable;
  }

  // ---- Fairness, for tables of any size

  /** How many slots before v the pointer is, going round. */
  function Ahead(n: nat, from: nat, v: nat): nat
    requires v < n && from < n
  {
    if from <= v then v - from else v + n - from
  }

  lemma AroundSmall(n: nat, from: nat, k: nat)
    requires from < n && k <= n
    ensures Around(n, from, k) == if from + k < n then from + k else from + k - n
  {
    if from + k < n { DivUnique(from + k, n, 0, from + k); } else { DivUnique(from + k, n, 1, from + k - n); }
  }

  /** If v is runnable, a pick takes v or brings the pointer strictly closer to it. */
  lemma PickApproaches(vms: seq<Vm>, from: nat, v: nat)
    requires v < |vms| && from < |vms| && Runnable(vms[v])
    ensures var p := Pick(vms, from);
            p.Some? && p.value.0 < |vms| && p.value.1 < |vms| && Runnable(vms[p.value.0])
            && (p.value.0 == v || Ahead(|vms|, p.value.1, v) < Ahead(|vms|, from, v))
  {
    var n, a := |vms|, Ahead(|vms|, from, v);
    AroundSmall(n, from, a);
    var d := Distance(vms, from, 0);
    assert d <= a;
    AroundSmall(n, from, d);
    AroundSmall(n, Around(n, from, d), 1);
  }

  /** The picks made on a sequence of tables, each from where the last one left the pointer. */
  function Picks(tables: seq<seq<Vm>>, from: nat): seq<nat>
    requires forall i :: 0 <= i < |tables| ==> tables[i] != []
    decreases tables
  {
    if tables == [] then []
    else
      var p := Pick(tables[0], from);
      if p.None? then Picks(tables[1..], from) else [p.value.0] + Picks(tables[1..], p.value.1)
  }

  lemma {:induction false} AllPicked(tables: seq<seq<Vm>>, n: nat, from: nat, v: nat)
    requires v < n && from < n && forall i :: 0 <= i < |tables| ==> |tables[i]| == n && Runnable(tables[i][v])
    ensures |Picks(tables, from)| == |tables|
    decreases tables
  {
    hide Pick, Runnable;
    if tables != [] {
      PickApproaches(tables[0], from, v);
      AllPicked(tables[1..], n, Pick(tables[0], from).value.1, v);
    }
  }

  /** A VM that is runnable at every pick is picked within n picks, whatever the other VMs do in between. */
  lemma {:induction false} Fair(tables: seq<seq<Vm>>, n: nat, from: nat, v: nat)
    requires v < n && from < n && forall i :: 0 <= i < |tables| ==> |tables[i]| == n && Runnable(tables[i][v])
    requires |tables| > Ahead(n, from, v)
    ensures Ahead(n, from, v) < n && Ahead(n, from, v) < |Picks(tables, from)|
    ensures v in Picks(tables, from)[..Ahead(n, from, v) + 1]
    decreases tables
  {
    hide Pick, Runnable;
    var t := tables[0];
    PickApproaches(t, from, v);
    var (c, next) := Pick(t, from).value;
    var rest := tables[1..];
    assert forall i :: 0 <= i < |rest| ==> rest[i] == tables[i + 1];
    assert Picks(tables, from) == [c] + Picks(rest, next);
    AllPicked(rest, n, next, v);
    if c != v {
      Fair(rest, n, next, v);
      InPrefix(c, Picks(rest, next), Ahead(n, next, v) + 1, Ahead(n, from, v) + 1, v);
    } else {
      assert Picks(tables, from)[..Ahead(n, from, v) + 1][0] == v;
    }
  }

  lemma InPrefix(c: nat, xs: seq<nat>, m: nat, k: nat, v: nat)
    requires m <= |xs| && v in xs[..m] && m < k <= |xs| + 1
    ensures v in ([c] + xs)[..k]
  {
    var i :| 0 <= i < m && xs[i] == v;
    assert ([c] + xs)[..k][i + 1] == v;
  }

  /** The table that an event of the running system gives to the scheduler, if it calls it. */
  function ScheduledTable(h: Hv, e: Event): Option<seq<Vm>>
    requires Shaped(h)
  {
    if !e.Tick? && !e.VmExit? then None
    else
      var h0 := if e.VmExit? then SetState(h, h.current, Halted) else h;
      Some((if h0.vms[h0.current].state == Running then SetState(h0, h0.current, Ready) else h0).vms)
  }

  ghost function ScheduledTables(h: Hv, es: seq<Event>): seq<seq<Vm>>
    requires Inv(h) && LegalRun(h, es)
    decreases es
  {
    if es == [] then []
    else
      StepKeeps(h, es[0]);
      var t, rest := ScheduledTable(h, es[0]), ScheduledTables(Step(h, es[0]), es[1..]);
      if t.Some? then [t.value] + rest else rest
  }

  /** The VMs that are put on the CPU in a run, one for each scheduling event that finds one. */
  ghost function Dispatched(h: Hv, es: seq<Event>): seq<nat>
    requires Inv(h) && LegalRun(h, es)
    decreases es
  {
    if es == [] then []
    else
      StepKeeps(h, es[0]);
      var t, rest := ScheduledTable(h, es[0]), Dispatched(Step(h, es[0]), es[1..]);
      if t.Some? && t.value != [] && Pick(t.value, h.rrNext).Some? then [Step(h, es[0]).current] + rest else rest
  }

  lemma {:induction false} DispatchedArePicks(h: Hv, es: seq<Event>)
    requires Inv(h) && LegalRun(h, es)
    ensures forall i :: 0 <= i < |ScheduledTables(h, es)| ==> |ScheduledTables(h, es)[i]| == MAX_VMS
    ensures Dispatched(h, es) == Picks(ScheduledTables(h, es), h.rrNext)
    decreases es
  {
    hide Pick, Picks, LiveCount, Step;
    if es == [] {
      NoPicks(h.rrNext);
    } else {
      StepKeeps(h, es[0]);
      var h' := Step(h, es[0]);
      DispatchedArePicks(h', es[1..]);
      StepPicks(h, es[0]);
      var t := ScheduledTable(h, es[0]);
      if t.Some? { PicksStep(t.value, ScheduledTables(h', es[1..]), h.rrNext); }
    }
  }

  lemma NoPicks(from: nat)
    ensures Picks([], from) == []
  {
  }

  lemma PicksStep(t: seq<Vm>, rest: seq<seq<Vm>>, from: nat)
    requires t != [] && forall i :: 0 <= i < |rest| ==> rest[i] != []
    ensures var p := Pick(t, from);
            Picks([t] + rest, from) == if p.None? then Picks(rest, from) else [p.value.0] + Picks(rest, p.value.1)
  {
    hide Pick;
    assert ([t] + rest)[1..] == rest;
  }

  /** Only scheduling moves the round-robin pointer, and it puts the picked VM on the CPU. */
  lemma StepPicks(h: Hv, e: Event)
    requires Inv(h) && Legal(h, e)
    ensures var t, h' := ScheduledTable(h, e), Step(h, e);
            if t.None? then h'.rrNext == h.rrNext
            else
              |t.value| == MAX_VMS
              && if Pick(t.value, h.rrNext).None? then h'.rrNext == h.rrNext
                 else h'.current == Pick(t.value, h.rrNext).value.0 && h'.rrNext == Pick(t.value, h.rrNext).value.1
  {
    hide Pick, LiveCount, IdentityTable, Wipe, OwnedByOther, Confined;
  }

  /** In any run, a VM that is READY or RUNNING whenever the scheduler looks is put on the CPU by one of the
      next four dispatches at the latest. */
  lemma FairRun(h: Hv, es: seq<Event>, v: nat)
    requires Inv(h) && LegalRun(h, es) && v < MAX_VMS
    requires forall i :: 0 <= i < |ScheduledTables(h, es)| ==>
               |ScheduledTables(h, es)[i]| == MAX_VMS && Runnable(ScheduledTables(h, es)[i][v])
    requires |ScheduledTables(h, es)| >= MAX_VMS
    ensures |Dispatched(h, es)| >= MAX_VMS && v in Dispatched(h, es)[..MAX_VMS]
  {
    DispatchedArePicks(h, es);
    Fair(ScheduledTables(h, es), MAX_VMS, h.rrNext, v);
    AllPicked(ScheduledTables(h, es), MAX_VMS, h.rrNext, v);
    var ps, k := Dispatched(h, es), Ahead(MAX_VMS, h.rrNext, v) + 1;
    assert ps[..k] <= ps[..MAX_VMS];
  }
}
