/** The machine: memory, translation buffer, MMU root, ready queue and current process, and what a
    memory access and an interrupt do to them. A process is its PID; 0 stands for no process. */
module Kernel {
  import opened Sv48
  import opened PageTable
  import opened Memory
  import Teardown
  import Tlb

  datatype Config = Config(tlbOn: bool, asidOn: bool)

  datatype Machine = Machine(
    cfg: Config,
    mm: Memory.State,
    ready: seq<nat>,
    current: nat,
    cpu: nat,          // the process the processor runs
    root: nat,         // address of the table the MMU walks
    tlb: Tlb.State,
    faults: nat,
    switches: nat)

  datatype Translation = Translated(pAddr: nat) | PageFault | Trap(error: Error)

  datatype Interrupt = Timer | SyscallExit

  /** Page bits shifted in as a 64-bit word, over the offset of the address in its page. */
  function PhysicalAddr(addr: u64, pPage: nat): nat {
    (pPage * PAGE_SIZE) % TWO_64 + addr % PAGE_SIZE
  }

  /** Translation by the page-table walk alone. */
  function WalkFor(mem: Ram, root: nat, addr: u64): Translation {
    if root % PAGE_SIZE != 0 then Trap(UnalignedRoot)
    else
      match Walk(mem, root / PAGE_SIZE, MmuPath(VPage(addr)))
      case None => PageFault
      case Some(p) => Translated(PhysicalAddr(addr, p))
  }

  /** Translation through the buffer: a hit answers at once, a successful walk is added. */
  function GetTranslation(k: Machine, addr: u64): (r: (Translation, Machine))
    requires Tlb.Ok(k.tlb)
    ensures Tlb.Ok(r.1.tlb)
  {
    if k.cfg.tlbOn then
      var (hit, tlb) := Tlb.Lookup(k.tlb, VPage(addr));
      if hit.Some? then (Translated(PhysicalAddr(addr, hit.value)), k.(tlb := tlb))
      else if k.root % PAGE_SIZE != 0 then (Trap(UnalignedRoot), k.(tlb := tlb))
      else
        match Walk(k.mm.mem, k.root / PAGE_SIZE, MmuPath(VPage(addr)))
        case None => (PageFault, k.(tlb := tlb))
        case Some(p) =>
          Tlb.ApplyKeeps(tlb, Tlb.DoAdd(VPage(addr), p));
          (Translated(PhysicalAddr(addr, p)), k.(tlb := Tlb.Add(tlb, VPage(addr), p)))
    else (WalkFor(k.mm.mem, k.root, addr), k)
  }

  /** The kernel's page-fault handler. */
  ghost function HandleFault(k: Machine, addr: u64): (Option<Error>, Machine) {
    var k' := k.(faults := k.faults + 1);
    match Fault(k.mm, k.current, addr)
    case Done(mm) => (None, k'.(mm := mm))
    case Failed(mm, e) => (Some(e), k'.(mm := mm))
  }

  /** One memory access: translated at once, or after the page fault it raises is handled. */
  ghost function Access(k: Machine, addr: u64): (Translation, Machine)
    requires Tlb.Ok(k.tlb)
  {
    if k.root == 0 then (Trap(NoPageTableSet), k)
    else
      var (t, k1) := GetTranslation(k, addr);
      if t != PageFault then (t, k1)
      else
        var (e, k2) := HandleFault(k1, addr);
        match e
        case Some(error) => (Trap(error), k2)
        case None => GetTranslation(k2, addr)
  }

  function PageTableAddr(s: Memory.State, pid: nat): nat {
    if pid in s.roots then s.roots[pid] * PAGE_SIZE else 0
  }

  /** Makes next the running process; nothing to do when it is running already. */
  function SwitchTo(k: Machine, next: nat): Machine {
    if next == k.current then k
    else
      var tlb :=
        if !k.cfg.tlbOn then k.tlb
        else if k.cfg.asidOn then Tlb.SetAsid(k.tlb, next)
        else Tlb.Flush(k.tlb);
      k.(current := next, cpu := next, tlb := tlb, switches := k.switches + 1,
         root := if next != 0 then PageTableAddr(k.mm, next) else k.root)
  }

  /** An interrupt first ends or requeues the current process. */
  ghost function Requeued(k: Machine, i: Interrupt): Machine
    requires i.SyscallExit? ==> k.current in k.mm.roots
  {
    if i.SyscallExit? then k.(mm := Teardown.Terminate(k.mm, k.current))
    else if k.current != 0 then k.(ready := k.ready + [k.current])
    else k
  }

  /** It then dispatches the front of the queue. */
  ghost function HandleInterrupt(k: Machine, i: Interrupt): Machine
    requires i.SyscallExit? ==> k.current in k.mm.roots
  {
    var k1 := Requeued(k, i);
    if k1.ready == [] then SwitchTo(k1, 0)
    else SwitchTo(k1.(ready := k1.ready[1..]), k1.ready[0])
  }

  /* ----- the invariant ----- */

  /** Whose translation a slot holds: its tag says, or, without tags, the running process. */
  function Owner(k: Machine, s: Tlb.Slot): nat {
    if k.cfg.asidOn then s.asid else k.current
  }

  /** A slot of a live process holds what that process maps. */
  ghost predicate SlotOk(k: Machine, s: Tlb.Slot) {
    Owner(k, s) in k.mm.roots ==> Mapped(k.mm, Owner(k, s), MmuPath(s.tag)) == Some(s.ppn)
  }

  ghost predicate TlbCoherent(k: Machine)
    requires Tlb.Ok(k.tlb)
  {
    && (k.cfg.asidOn ==> k.tlb.asid == k.current)
    && (forall i :: 0 <= i < k.tlb.population ==> SlotOk(k, k.tlb.slots[i]))
    && (forall i, j :: 0 <= i < j < k.tlb.population ==>
          k.tlb.slots[i].tag != k.tlb.slots[j].tag || k.tlb.slots[i].asid != k.tlb.slots[j].asid)
  }

  /** The live processes are the current one and those in the ready queue, each once. */
  ghost predicate QueueOk(k: Machine) {
    && 0 !in k.ready && k.current !in k.ready && Distinct(k.ready)
    && (forall p {:trigger p in k.mm.roots} :: p in k.mm.roots <==> p in k.ready || (p == k.current && p != 0))
  }

  /** Processor, MMU and kernel agree on the running process. */
  ghost predicate ContextOk(k: Machine) {
    && k.cpu == k.current
    && (k.current != 0 ==> k.root == PageTableAddr(k.mm, k.current))
  }

  ghost predicate Inv(k: Machine, o: Account) {
    && Sound(k.mm, o)
    && Tlb.Ok(k.tlb)
    && QueueOk(k)
    && ContextOk(k)
    && (k.cfg.tlbOn ==> TlbCoherent(k))
  }

  /** The frame of the running process's root, and that it is not address 0. */
  lemma {:induction false} RunningRoot(k: Machine, o: Account)
    requires Inv(k, o) && k.current != 0
    ensures k.current in k.mm.roots && k.root == k.mm.roots[k.current] * PAGE_SIZE && 0 < k.root
    ensures k.root % PAGE_SIZE == 0 && k.root / PAGE_SIZE == k.mm.roots[k.current]
  {
    RootRole(k.mm, o, k.current);
    assert FrameOk(k.mm.mem, k.mm.roots, o.role, k.mm.roots[k.current]);
  }

  /** The buffer is transparent: with or without it, a translation is what the walk says. */
  lemma {:induction false} Transparent(k: Machine, o: Account, addr: u64)
    requires Inv(k, o) && k.current != 0
    ensures GetTranslation(k, addr).0 == WalkFor(k.mm.mem, k.root, addr)
  {
    RunningRoot(k, o);
  }

  /** A translation changes the buffer only, and keeps it coherent and free of duplicates. */
  lemma {:induction false} GetTranslationKeeps(k: Machine, o: Account, addr: u64)
    requires Inv(k, o) && k.current != 0
    ensures var k' := GetTranslation(k, addr).1;
      Inv(k', o) && k' == k.(tlb := k'.tlb)
  {
    hide Sound;
    RunningRoot(k, o);
  }

  /** Slots of live processes stay right when the only page mapped anew was not mapped. */
  lemma {:induction false} SlotsSurvive(k: Machine, k': Machine)
    requires Tlb.Ok(k.tlb) && TlbCoherent(k) && k'.tlb == k.tlb && k'.cfg == k.cfg && k'.current == k.current
    requires forall p, w: seq<Index> :: |w| == 4 && p in k'.mm.roots && Mapped(k.mm, p, w).Some? ==>
               p in k.mm.roots && Mapped(k'.mm, p, w) == Mapped(k.mm, p, w)
    requires forall p :: p in k'.mm.roots ==> p in k.mm.roots
    ensures TlbCoherent(k')
  {
    forall i | 0 <= i < k.tlb.population
      ensures SlotOk(k', k.tlb.slots[i])
    {
      assert SlotOk(k, k.tlb.slots[i]);
    }
  }

  /** Handling a fault on an unmapped page: that page is mapped to a frame nobody had, or memory is
      full and no mapping has changed. */
  lemma {:induction false} HandleFaultKeeps(k: Machine, o: Account, addr: u64) returns (o': Account, d: nat)
    requires Inv(k, o) && k.current != 0
    requires Mapped(k.mm, k.current, MmuPath(VPage(addr))) == None
    ensures var (e, k') := HandleFault(k, addr);
      && Inv(k', o') && o'.twice == o.twice && o'.gone == o.gone
      && k' == k.(mm := k'.mm, faults := k.faults + 1)
      && d !in o.role && Grown(o.role, o'.role, k.current, MmuPath(VPage(addr)), d)
      && (e.Some? ==> e == Some(MemoryFull) && SameMaps(k.mm, k'.mm))
      && (e.None? ==> MapUpdated(k.mm, k'.mm, k.current, MmuPath(VPage(addr)), d)
                      && d in o'.role && o'.role[d].Page? && o'.role[d].pid == k.current
                      && o'.role[d].path == MmuPath(VPage(addr)))
  {
    RunningRoot(k, o);
    o', d := FaultRefines(k.mm, o, k.current, addr);
    var (e, k') := HandleFault(k, addr);
    if k.cfg.tlbOn {
      SlotsSurvive(k, k');
    }
  }

  /** How one access of the running process ends. */
  ghost predicate AccessResult(k: Machine, addr: u64, t: Translation, k': Machine) {
    var path := MmuPath(VPage(addr));
    var before, after := Mapped(k.mm, k.current, path), Mapped(k'.mm, k.current, path);
    && k'.cfg == k.cfg && k'.ready == k.ready && k'.current == k.current && k'.root == k.root
    && k'.switches == k.switches && k'.cpu == k.cpu
    && (before.Some? ==> t.Translated? && k'.mm == k.mm && k'.faults == k.faults)
    && (before.None? ==> k'.faults == k.faults + 1)
    && (t.Translated? ==> after.Some? && t.pAddr == after.value * PAGE_SIZE + addr % PAGE_SIZE)
    && (!t.Translated? ==> t == Trap(MemoryFull) && SameMaps(k.mm, k'.mm))
    && (before.None? && t.Translated? ==> MapUpdated(k.mm, k'.mm, k.current, path, after.value))
  }

  /** A frame number fits the address word. */
  lemma {:induction false} MappedFits(k: Machine, o: Account, addr: u64)
    requires Inv(k, o) && k.current != 0
    ensures var m := Mapped(k.mm, k.current, MmuPath(VPage(addr)));
      m.Some? ==> PhysicalAddr(addr, m.value) == m.value * PAGE_SIZE + addr % PAGE_SIZE
  {
    RunningRoot(k, o);
    RootRole(k.mm, o, k.current);
    WalkRole(k.mm.mem, k.mm.roots, o.role, k.mm.roots[k.current], MmuPath(VPage(addr)));
    var m := Mapped(k.mm, k.current, MmuPath(VPage(addr)));
    if m.Some? {
      assert FrameOk(k.mm.mem, k.mm.roots, o.role, m.value);
    }
  }

  /** What the walk of the running process says. */
  lemma {:induction false} WalkIsMapped(k: Machine, o: Account, addr: u64)
    requires Inv(k, o) && k.current != 0
    ensures WalkFor(k.mm.mem, k.root, addr) ==
            match Mapped(k.mm, k.current, MmuPath(VPage(addr)))
            case None => PageFault
            case Some(p) => Translated(p * PAGE_SIZE + addr % PAGE_SIZE)
  {
    RunningRoot(k, o);
    MappedFits(k, o, addr);
  }

  /** One access takes at most one page fault; it ends in the physical address of the mapped frame,
      or memory is full and nothing was mapped. */
  lemma {:induction false} AccessKeeps(k: Machine, o: Account, addr: u64) returns (o': Account)
    requires Inv(k, o) && k.current != 0
    ensures var (t, k') := Access(k, addr);
      && Inv(k', o') && o'.twice == o.twice && o'.gone == o.gone && AccessResult(k, addr, t, k')
      && Extends(o.role, o'.role) && (t.Translated? ==> NewFor(o.role, o'.role, k.current))
      && (Tidy(o.role) && t.Translated? ==> Tidy(o'.role))
  {
    var (t, k1) := GetTranslation(k, addr);
    RunningRoot(k, o);
    Transparent(k, o, addr);
    WalkIsMapped(k, o, addr);
    GetTranslationKeeps(k, o, addr);
    o' := o;
    if t == PageFault {
      var d: nat;
      o', d := HandleFaultKeeps(k1, o, addr);
      GrownExtends(o.role, o'.role, k.current, MmuPath(VPage(addr)), d);
      var (e, k2) := HandleFault(k1, addr);
      if e.None? {
        if Tidy(o.role) {
          GrownTidy(o.role, o'.role, k.current, MmuPath(VPage(addr)), d);
        }
        Transparent(k2, o', addr);
        WalkIsMapped(k2, o', addr);
        GetTranslationKeeps(k2, o', addr);
      }
    }
  }

  /** A switch is counted exactly when the process changes, and is no page fault. */
  ghost predicate Switched(k: Machine, k': Machine) {
    k'.faults == k.faults && k'.switches == k.switches + if k'.current == k.current then 0 else 1
  }

  /** Switching to a live process, or to none when the queue is empty. */
  lemma {:induction false} SwitchKeeps(k: Machine, o: Account, next: nat)
    requires Sound(k.mm, o) && Tlb.Ok(k.tlb) && (k.cfg.tlbOn ==> TlbCoherent(k))
    requires next == k.current ==> ContextOk(k)
    requires next == 0 || next in k.mm.roots
    ensures var k' := SwitchTo(k, next);
      && Tlb.Ok(k'.tlb) && ContextOk(k') && k'.current == next && (k.cfg.tlbOn ==> TlbCoherent(k'))
      && k'.mm == k.mm && k'.ready == k.ready && k'.cfg == k.cfg && Switched(k, k')
  {
    var k' := SwitchTo(k, next);
    if k.cfg.tlbOn && k.cfg.asidOn {
      forall i | 0 <= i < k'.tlb.population
        ensures SlotOk(k', k'.tlb.slots[i])
      {
        assert SlotOk(k, k.tlb.slots[i]);
      }
    }
  }

  /** The account after an interrupt. */
  ghost function InterruptAccount(k: Machine, o: Account, i: Interrupt): Account {
    if i.SyscallExit? && Teardown.TablesOf(o.role, k.current) != {} then Teardown.Closed(o, k.current) else o
  }

  /** Once the current process is ended or requeued, the live processes are those in the queue. */
  lemma {:induction false} RequeuedKeeps(k: Machine, o: Account, i: Interrupt)
    requires Inv(k, o) && (i.SyscallExit? ==> k.current != 0)
    ensures k.current in k.mm.roots || k.current == 0
    ensures var k1 := Requeued(k, i);
      && Sound(k1.mm, InterruptAccount(k, o, i)) && Distinct(k1.ready) && 0 !in k1.ready
      && (forall p {:trigger p in k1.mm.roots} :: p in k1.mm.roots <==> p in k1.ready)
      && k1 == k.(mm := k1.mm, ready := k1.ready)
      && k1.mm == (if i.SyscallExit? then Teardown.Terminate(k.mm, k.current) else k.mm)
      && (k.cfg.tlbOn ==> TlbCoherent(k1))
      && (k1.ready == [] ==> i.SyscallExit? || k.current == 0)
  {
    hide SlotOk, Teardown.Terminate;
    if i.SyscallExit? {
      Teardown.TerminateKeeps(k.mm, o, k.current);
      Teardown.TerminateKind(k.mm, k.current);
    } else if k.current != 0 {
      DistinctAppend(k.ready, [k.current]);
    }
    if k.cfg.tlbOn {
      SlotsSurvive(k, Requeued(k, i));
    }
  }

  /** Dispatching the front of a queue of all the live processes. */
  ghost predicate Dispatched(k1: Machine, o: Account, k': Machine) {
    && Inv(k', o) && k'.cfg == k1.cfg && k'.mm == k1.mm && Switched(k1, k')
    && k' == if k1.ready == [] then SwitchTo(k1, 0) else SwitchTo(k1.(ready := k1.ready[1..]), k1.ready[0])
  }

  lemma {:induction false} DispatchKeeps(k1: Machine, o: Account) returns (k': Machine)
    requires Sound(k1.mm, o) && Tlb.Ok(k1.tlb) && (k1.cfg.tlbOn ==> TlbCoherent(k1))
    requires Distinct(k1.ready) && 0 !in k1.ready
    requires forall p {:trigger p in k1.mm.roots} :: p in k1.mm.roots <==> p in k1.ready
    requires k1.current == (if k1.ready == [] then 0 else k1.ready[0]) ==> ContextOk(k1)
    ensures Dispatched(k1, o, k')
  {
    hide Sound, SlotOk, SwitchTo;
    if k1.ready == [] {
      SwitchKeeps(k1, o, 0);
      k' := SwitchTo(k1, 0);
    } else {
      var k2 := k1.(ready := k1.ready[1..]);
      assert k1.ready == [k1.ready[0]] + k1.ready[1..];
      if k1.cfg.tlbOn {
        SlotsSurvive(k1, k2);
      }
      SwitchKeeps(k2, o, k1.ready[0]);
      k' := SwitchTo(k2, k1.ready[0]);
    }
  }

  /** Every interrupt keeps the invariant. */
  lemma {:induction false} InterruptKeeps(k: Machine, o: Account, i: Interrupt)
    requires Inv(k, o) && (i.SyscallExit? ==> k.current != 0)
    ensures k.current in k.mm.roots || k.current == 0
    ensures var k' := HandleInterrupt(k, i);
      && Inv(k', InterruptAccount(k, o, i))
      && k'.cfg == k.cfg && k'.mm == (if i.SyscallExit? then Teardown.Terminate(k.mm, k.current) else k.mm)
      && Switched(k, k')
  {
    hide Sound, TlbCoherent, Teardown.Terminate, Requeued, InterruptAccount, SwitchTo;
    RequeuedKeeps(k, o, i);
    if i.SyscallExit? {
      Teardown.TerminateKind(k.mm, k.current);
    }
    var k' := DispatchKeeps(Requeued(k, i), InterruptAccount(k, o, i));
  }
}
