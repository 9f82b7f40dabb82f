/** The life of a virtual machine: which calls succeed, what state each event leaves, and who gets the CPU. */
module HypervisorLifecycle {
  import opened Wrappers
  import opened Hypervisor
  import opened HypervisorProofs

  // ---- Which calls succeed

  /** Start and destroy work on every VM that is in use and not on the CPU, pause on one that may run; each changes
      the state of its VM and of no other. */
  lemma CallsSucceedIff(h: Hv, id: nat)
    requires Shaped(h)
    ensures var s := if id < 4 then h.vms[id].state else Free;
            && (StartVm(h, id).1 == 0 <==> s != Free && s != Running)
            && (DestroyVm(h, id).1 == 0 <==> s != Free && s != Running)
            && (PauseVm(h, id).1 == 0 <==> s == Ready || s == Running)
    ensures id < 4 && StartVm(h, id).1 == 0 ==> StartVm(h, id).0.vms == h.vms[id := h.vms[id].(state := Ready)]
    ensures id < 4 && DestroyVm(h, id).1 == 0 ==> DestroyVm(h, id).0.vms == h.vms[id := h.vms[id].(state := Free)]
    ensures id < 4 && PauseVm(h, id).1 == 0 ==> PauseVm(h, id).0.vms == h.vms[id := h.vms[id].(state := Blocked)]
    ensures StartVm(h, id).1 != 0 ==> StartVm(h, id).0 == h
    ensures DestroyVm(h, id).1 != 0 ==> DestroyVm(h, id).0 == h
    ensures PauseVm(h, id).1 != 0 ==> PauseVm(h, id).0 == h
  {
    hide Wipe;
  }

  /** A creation succeeds exactly for a size of at most 64 KB that holds the entry point, with a free slot, and with a
      base that is left open or lies above the hypervisor and whose 32-bit sum with the size stays in RAM. The VM
      takes the lowest free slot; the other slots stay as they were. */
  lemma CreateSucceedsIff(h: Hv, base: Uint32, size: Uint32, pc: Uint32)
    requires Inv(h)
    ensures var (h', r) := CreateVm(h, base, size, pc);
            && (r >= 0 <==>
                  && 0 < size <= 0x1_0000 && pc < size && (exists v :: 0 <= v < 4 && h.vms[v].state == Free)
                  && (base == 0 || (base >= 0x1_0000 && (base + size) % 0x1_0000_0000 <= 0x6_0000)))
            && (r >= 0 ==>
                  && r < 4 && h.vms[r].state == Free && (forall v :: 0 <= v < r ==> h.vms[v].state != Free)
                  && h'.vms == h.vms[r := Vm(Created, if base == 0 then 0x1_0000 + r * 0x1_0000 else base, size)]
                  && h'.count == h.count + 1)
  {
    hide IdentityTable, Wipe, Confined, Scattered, LiveCount;
  }

  /** A mapping is accepted exactly for a page of the 64 KB guest space, a host page above the hypervisor, and one
      that begins in no other live VM's memory. */
  lemma MapAcceptedIff(h: Hv, id: nat, gpa: Uint32, hpa: Uint32, flags: Uint32)
    requires Inv(h)
    ensures MapPage(h, id, gpa, hpa, flags).1 == 0 <==>
              && id < 4 && gpa % 1024 == 0 && hpa % 1024 == 0 && gpa < 0x1_0000 && hpa >= 0x1_0000
              && forall o :: 0 <= o < 4 && o != id && h.vms[o].state != Free ==>
                  !(0 <= hpa - h.vms[o].memBase < h.vms[o].memSize)
    ensures MapPage(h, id, gpa, hpa, flags).1 != 0 ==> MapPage(h, id, gpa, hpa, flags).0 == h
  {
    forall o | 0 <= o < MAX_VMS
      ensures Owns(h.vms[o], hpa) <==> h.vms[o].state != Free && 0 <= hpa - h.vms[o].memBase < h.vms[o].memSize
    {
      if h.vms[o].state != Free {
        assert Confined(h, o);
        ExtentCovers(o, h.vms[o]);
      }
    }
    hide Inv, Owns, Confined;
  }

  /** After an accepted mapping the guest page leads to the host page; all other addresses lead where they led. */
  lemma MappedTranslates(h: Hv, id: nat, gpa: Uint32, hpa: Uint32, flags: Uint32, v: nat, x: Uint32)
    requires Shaped(h) && MapPage(h, id, gpa, hpa, flags).1 == 0
    ensures var h' := MapPage(h, id, gpa, hpa, flags).0;
            TranslateGpa(h', v, x) == if v == id && 0 <= x - gpa < 1024 then Some(hpa + (x - gpa))
                else TranslateGpa(h, v, x)
  {
    hide OwnedByOther;
    PageOf(x, gpa, hpa);
  }

  lemma PageOf(x: Uint32, gpa: Uint32, hpa: Uint32)
    requires gpa % 1024 == 0 && hpa % 1024 == 0
    ensures x / 1024 == gpa / 1024 <==> 0 <= x - gpa < 1024
    ensures x / 1024 == gpa / 1024 ==> (hpa + x % 1024) % UINT32 == hpa + (x - gpa)
  {
  }

  // ---- Who gets the CPU

  /** Some VM may run, once the one that exits has been halted. */
  predicate SomeRunnable(h: Hv, e: Event)
    requires Shaped(h)
  {
    exists v :: 0 <= v < MAX_VMS && Runnable(h.vms[v]) && !(e.VmExit? && v == h.current)
  }

  /** The state in which a VM that is not put on the CPU is left. */
  function LeftIn(h: Hv, e: Event, v: nat): VmState
    requires Shaped(h) && v < MAX_VMS
  {
    if e.VmExit? && v == h.current then Halted else if h.vms[v].state == Running then Ready else h.vms[v].state
  }

  lemma Scheduled(h: Hv)
    requires Shaped(h) && forall v :: 0 <= v < MAX_VMS && h.vms[v].state == Running ==> v == h.current
    ensures var h' := Schedule(h);
            && ((exists v :: 0 <= v < MAX_VMS && Runnable(h.vms[v])) ==>
                  && Runnable(h.vms[h'.current]) && h'.vms[h'.current] == h.vms[h'.current].(state := Running)
                  && forall v :: 0 <= v < MAX_VMS && v != h'.current ==>
                       h'.vms[v] == h.vms[v].(state := if h.vms[v].state == Running then Ready else h.vms[v].state))
            && ((forall v :: 0 <= v < MAX_VMS ==> !Runnable(h.vms[v])) ==> h' == h)
  {
    hide Distance, Around;
    var h1 := if h.vms[h.current].state == Running then SetState(h, h.current, Ready) else h;
    forall v | 0 <= v < MAX_VMS
      ensures Runnable(h1.vms[v]) == Runnable(h.vms[v]) && h1.vms[v].state != Running
    {
    }
    if v :| 0 <= v < MAX_VMS && Runnable(h.vms[v]) { PickApproaches(h1.vms, h1.rrNext, v); }
  }

  /** After a timer tick or an exit the VM on the CPU is RUNNING and no other one is, if any VM may run; the VM that
      was on the CPU is READY or, after its exit, HALTED, and all others are as they were. Otherwise none is RUNNING. */
  lemma Dispatches(h: Hv, e: Event)
    requires Inv(h) && (e.Tick? || e.VmExit?)
    ensures var h' := Step(h, e);
            && (SomeRunnable(h, e) ==>
                  && Runnable(h.vms[h'.current]) && !(e.VmExit? && h'.current == h.current)
                  && forall v :: 0 <= v < MAX_VMS ==>
                       (h'.vms[v].state == Running <==> v == h'.current)
                       && (v != h'.current ==> h'.vms[v].state == LeftIn(h, e, v)))
            && (!SomeRunnable(h, e) ==> h'.current == h.current && forall v :: 0 <= v < MAX_VMS ==>
                  h'.vms[v].state != Running && h'.vms[v].state == LeftIn(h, e, v))
  {
    hide Schedule, LiveCount, Confined, Scattered;
    var h0 := if e.VmExit? then SetState(h, h.current, Halted) else h;
    forall v | 0 <= v < MAX_VMS
      ensures Runnable(h0.vms[v]) <==> Runnable(h.vms[v]) && !(e.VmExit? && v == h.current)
    {
    }
    Scheduled(h0);
  }

  // ---- What each event may do to a VM

  /** The arcs of a VM's life. */
  predicate Arc(e: Event, v: nat, from: VmState, to: VmState) {
    || from == to
    || (e.Create? && from == Free && to == Created)
    || (e == Start(v) && from != Free && from != Running && to == Ready)
    || (e == Pause(v) && (from == Ready || from == Running) && to == Blocked)
    || (e == Destroy(v) && from != Free && from != Running && to == Free)
    || ((e.Tick? || e.VmExit?) && ((from == Ready && to == Running) || (from == Running && to == Ready)))
    || (e.VmExit? && to == Halted)
  }

  /** Every event moves every VM along an arc: a running VM is never destroyed, only a tick or an exit puts a VM on the
      CPU, and only a start makes a VM runnable. */
  lemma Lifecycle(h: Hv, e: Event, v: nat)
    requires Inv(h) && v < MAX_VMS
    ensures Arc(e, v, h.vms[v].state, Step(h, e).vms[v].state)
  {
    hide Schedule, LiveCount, Confined, Scattered, Wipe, IdentityTable, OwnedByOther;
    match e
    case Start(id) => CallsSucceedIff(h, id);
    case Pause(id) => CallsSucceedIff(h, id);
    case Destroy(id) => CallsSucceedIff(h, id);
    case Map(id, gpa, hpa, flags) => StillLive(h, id, gpa, hpa, flags);
    case Create(base, size, pc) => CreatesInFree(h, base, size, pc, v);
    case Tick => Dispatches(h, e);
    case VmExit => Dispatches(h, e);
  }

  lemma CreatesInFree(h: Hv, base: Uint32, size: Uint32, pc: Uint32, v: nat)
    requires Shaped(h) && v < MAX_VMS
    ensures var h' := CreateVm(h, base, size, pc).0;
            h'.vms[v] == h.vms[v] || (h.vms[v].state == Free && h'.vms[v].state == Created)
  {
    hide IdentityTable, Wipe;
  }

  /** Until it is started, a VM that may not run (new, paused, halted, or a free slot) gets no CPU. */
  lemma {:induction false} IdleUntilStarted(h: Hv, es: seq<Event>, v: nat)
    requires Inv(h) && LegalRun(h, es) && v < MAX_VMS && !Runnable(h.vms[v]) && Start(v) !in es
    ensures !Runnable(Run(h, es).vms[v]) && v !in Dispatched(h, es)
    decreases es
  {
    if es != [] {
      StepKeeps(h, es[0]);
      Lifecycle(h, es[0], v);
      assert es[0] != Start(v);
      NotDispatched(h, es[0], v);
      hide Step, Inv, Pick, ScheduledTable;
      IdleUntilStarted(Step(h, es[0]), es[1..], v);
    }
  }

  lemma NotDispatched(h: Hv, e: Event, v: nat)
    requires Inv(h) && Legal(h, e) && v < MAX_VMS && !Runnable(h.vms[v]) && e != Start(v)
    ensures !Runnable(Step(h, e).vms[v])
    ensures var t := ScheduledTable(h, e); t.Some? && t.value != [] && Pick(t.value, h.rrNext).Some? ==>
            Step(h, e).current != v
  {
    Lifecycle(h, e, v);
    var t := ScheduledTable(h, e);
    if t.Some? {
      Dispatches(h, e);
      StepPicks(h, e);
      SomePick(t.value, h.rrNext);
    }
    hide Schedule, LiveCount, Confined, Scattered, Distance, Around, Pick, CreateVm, DestroyVm, MapPage;
  }

  /** What is picked may run. */
  lemma SomePick(vms: seq<Vm>, from: nat)
    requires vms != []
    ensures Pick(vms, from).Some? ==> Pick(vms, from).value.0 < |vms| && Runnable(vms[Pick(vms, from).value.0])
  {
    hide Around;
  }
}
