/** The simulated system as objects: physical memory, the MMU, the MMU driver, the kernel and the
    processor. Each method does to the fields what its specification function does to the machine. */
module System {
  import opened Sv48
  import opened PageTable
  import opened Managers
  import opened Memory
  import opened Kernel
  import opened PageManager
  import opened Refinement
  import Bitmap
  import Buffer
  import HoleList
  import Room
  import Runs
  import Schedule
  import Teardown
  import Tlb

  /* ----- physical memory ----- */

  class PhysicalMemory {
    const frames: array<Table>

    ghost function Contents(): (mem: PageTable.Ram)
      reads frames
      ensures CoversRam(mem, frames.Length)
    {
      map f | f in FrameRange(frames.Length) :: frames[f - BASE_FRAME]
    }

    /** What RAM holds at first is not known. */
    constructor (n: nat)
      ensures fresh(frames) && frames.Length == n
    {
      frames := new Table[n];
    }

    /** Entry i of table f. */
    function Entry(f: nat, i: Index): Entry
      requires BASE_FRAME <= f < BASE_FRAME + frames.Length
      reads frames
    {
      frames[f - BASE_FRAME][i]
    }

    method SetEntry(f: nat, i: Index, e: Entry)
      requires BASE_FRAME <= f < BASE_FRAME + frames.Length
      modifies frames
      ensures Contents() == PageTable.SetEntry(old(Contents()), f, i, e)
    {
      frames[f - BASE_FRAME] := frames[f - BASE_FRAME][i := e];
    }

    /** Resets the valid bit of every entry of table f. */
    method Clear(f: nat)
      requires BASE_FRAME <= f < BASE_FRAME + frames.Length
      modifies frames
      ensures Contents() == old(Contents())[f := Cleared(At(old(Contents()), f))]
      ensures forall i: Index :: Entry(f, i) == old(Entry(f, i)).(valid := false)
    {
      ghost var was := frames[f - BASE_FRAME];
      for y := 0 to 512
        invariant forall k :: 0 <= k < frames.Length && k != f - BASE_FRAME ==> frames[k] == old(frames[k])
        invariant forall i: Index :: frames[f - BASE_FRAME][i] == if i < y then was[i].(valid := false) else was[i]
      {
        var k := f - BASE_FRAME;
        frames[k] := frames[k][y := frames[k][y].(valid := false)];
      }
      assert frames[f - BASE_FRAME] == Cleared(was);
    }
  }

  /* ----- the MMU ----- */

  class Mmu {
    const cfg: Config
    const memory: PhysicalMemory
    const tlb: Buffer.TranslationBuffer
    var root: nat

    constructor (cfg: Config, memory: PhysicalMemory, tlb: Buffer.TranslationBuffer)
      ensures this.cfg == cfg && this.memory == memory && this.tlb == tlb && root == 0
    {
      this.cfg, this.memory, this.tlb, this.root := cfg, memory, tlb, 0;
    }

    /** The four-level walk. An unaligned root is an error. */
    method PerformTranslation(vPage: nat) returns (error: Option<Error>, r: Option<nat>)
      requires root % PAGE_SIZE == 0 ==> WalkInRam(memory.Contents(), root / PAGE_SIZE, MmuPath(vPage))
      ensures error == if root % PAGE_SIZE != 0 then Some(UnalignedRoot) else None
      ensures error.None? ==> r == Walk(memory.Contents(), root / PAGE_SIZE, MmuPath(vPage))
    {
      if root % PAGE_SIZE != 0 {
        return Some(UnalignedRoot), None;
      }
      var table: nat := root / PAGE_SIZE;
      ghost var mem, path := memory.Contents(), MmuPath(vPage);
      var lv := 4;
      assert path[0..] == path;
      while lv > 0
        invariant 0 <= lv <= 4
        invariant WalkInRam(mem, table, path[4 - lv..])
        invariant Walk(mem, root / PAGE_SIZE, path) == Walk(mem, table, path[4 - lv..])
      {
        lv := lv - 1;
        var i := MmuIndex(vPage, lv);
        assert path[3 - lv..][0] == i && path[3 - lv..][1..] == path[4 - lv..];
        var e := memory.Entry(table, i);
        assert e == At(mem, table)[i];
        if !e.valid {
          return None, None;
        }
        if e.read {
          return None, Some(e.ppn);
        }
        table := e.ppn;
      }
      return None, None;
    }

    method GetTranslation(addr: u64, ghost k: Machine) returns (t: Translation)
      requires tlb.Valid()
      requires k.cfg == cfg && k.tlb == tlb.Model() && k.root == root && k.mm.mem == memory.Contents()
      requires root % PAGE_SIZE == 0 ==> WalkInRam(memory.Contents(), root / PAGE_SIZE, MmuPath(VPage(addr)))
      modifies tlb, tlb.storage
      ensures tlb.Valid()
      ensures t == Kernel.GetTranslation(k, addr).0 && tlb.Model() == Kernel.GetTranslation(k, addr).1.tlb
    {
      var vPage := VPage(addr);
      if cfg.tlbOn {
        var hit := tlb.Lookup(vPage);
        if hit.Some? {
          return Translated(PhysicalAddr(addr, hit.value));
        }
      }
      var error, pPage := PerformTranslation(vPage);
      match error {
        case Some(e) =>
          t := Trap(e);
        case None =>
          match pPage {
            case None =>
              t := PageFault;
            case Some(p) =>
              t := Translated(PhysicalAddr(addr, p));
              if cfg.tlbOn {
                tlb.Add(vPage, p);
              }
          }
      }
    }

    /** A translation for the running process of a kernel. */
    method Translate(kernel: OSKernel, addr: u64, ghost o: Account) returns (t: Translation)
      requires kernel.Valid() && kernel.mmu == this && Inv(kernel.State(), o) && kernel.current != 0
      modifies tlb, tlb.storage
      ensures kernel.Valid() && kernel.Repr() == old(kernel.Repr())
      ensures t == Kernel.GetTranslation(old(kernel.State()), addr).0
      ensures kernel.State() == Kernel.GetTranslation(old(kernel.State()), addr).1
    {
      hide Inv, WalkInRam, Kernel.GetTranslation;
      ghost var k := kernel.State();
      TranslationReady(k, o, addr);
      t := GetTranslation(addr, k);
    }

    /** One memory access of the running process: page faults are handled until it translates. */
    method ProcessMemAccess(kernel: OSKernel, addr: u64, ghost o: Account) returns (t: Translation)
      requires kernel.Valid() && kernel.mmu == this && kernel.State().root == root
      requires root == 0 || (Inv(kernel.State(), o) && kernel.current != 0)
      modifies kernel.Repr()
      ensures kernel.Valid() && fresh(kernel.Repr() - old(kernel.Repr()))
      ensures Tlb.Ok(old(kernel.State()).tlb)
      ensures old(root) == 0 ==> t == Trap(NoPageTableSet) && kernel.State() == old(kernel.State())
      ensures t == Access(old(kernel.State()), addr).0
      ensures kernel.State() == Access(old(kernel.State()), addr).1
    {
      assert Tlb.Ok(kernel.State().tlb);
      if root == 0 {
        return Trap(NoPageTableSet);
      }
      hide Access, Kernel.GetTranslation, Inv, Reaches, OSKernel.State, OSKernel.MM, OSKernel.Valid;
      ghost var k := kernel.State();
      AccessBegins(k, o, addr);
      t := Translate(kernel, addr, o);
      while t == PageFault
        invariant kernel.Valid() && fresh(kernel.Repr() - old(kernel.Repr()))
        invariant Reaches(k, addr, t, kernel.State())
        decreases t == PageFault
      {
        t := HandleAndRetry(kernel, addr, o, k);
      }
      AccessEnds(k, addr, t, kernel.State());
    }

    /** A page fault is handled, and the access translated again. */
    method HandleAndRetry(kernel: OSKernel, addr: u64, ghost o: Account, ghost k: Machine) returns (t: Translation)
      requires kernel.Valid() && kernel.mmu == this && Inv(k, o) && k.current != 0
      requires Reaches(k, addr, PageFault, kernel.State())
      modifies kernel.Repr()
      ensures kernel.Valid() && fresh(kernel.Repr() - old(kernel.Repr()))
      ensures Reaches(k, addr, t, kernel.State()) && t != PageFault
    {
      hide Access, HandleFault, Kernel.GetTranslation, Inv, Shaped, Reaches, OSKernel.State, OSKernel.MM,
          OSKernel.Valid;
      ghost var oc := FaultStep(k, o, addr, kernel.State());
      var e := kernel.PageFaultHandler(addr, o.role);
      if e.Some? {
        return Trap(e.value);
      }
      t := Translate(kernel, addr, oc);
    }
  }

  /* ----- the kernel ----- */

  class OSKernel {
    const cfg: Config
    const manager: Manager
    const driver: MmuDriver
    const memory: PhysicalMemory
    const mmu: Mmu
    const processor: Processor
    var processList: seq<nat>
    var current: nat
    var nPageFaults: nat
    var nContextSwitches: nat
    var memoryMapProcess: Ledger

    /** The objects that never change. */
    ghost function Fixed(): set<object> {
      {this, driver, mmu, mmu.tlb, mmu.tlb.storage, memory, memory.frames, processor}
    }

    ghost function Repr(): set<object>
      reads if manager.UseHoles? then {manager.holes} else {}
    {
      Fixed() + manager.Repr()
    }

    ghost predicate Valid()
      reads Repr()
    {
      && Fixed() !! manager.Repr()
      && manager.Valid() && mmu.tlb.Valid()
      && mmu.memory == memory && mmu.cfg == cfg && processor.mmu == mmu
      && memory.frames.Length == Pages(manager.Model())
    }

    ghost function MM(): Memory.State
      reads Repr()
    {
      Memory.State(memory.Contents(), manager.Model(), driver.pageTables, memoryMapProcess, driver.bytesAllocated)
    }

    ghost function State(): (k: Machine)
      reads Repr()
      ensures k.cfg == cfg && k.mm.mem == memory.Contents() && k.mm.mgr == manager.Model()
      ensures k.mm.roots == driver.pageTables && k.mm.ledger == memoryMapProcess
      ensures k.ready == processList && k.current == current && k.cpu == processor.current
      ensures k.root == mmu.root && k.tlb == mmu.tlb.Model()
    {
      Machine(cfg, MM(), processList, current, processor.current, mmu.root, mmu.tlb.Model(), nPageFaults,
          nContextSwitches)
    }

    /** A kernel for a machine that has not run yet; the root tables are still to be allocated. */
    constructor (processor: Processor, driver: MmuDriver, memorySize: nat, useHoles: bool, processList: seq<nat>)
      requires memorySize <= MAX_PAGES * PAGE_SIZE
      requires processor.mmu.memory.frames.Length == memorySize / PAGE_SIZE
      requires processor.mmu.tlb.Valid() && processor.current == 0 && processor.mmu.root == 0
      requires driver.pageTables == map[] && driver.bytesAllocated == 0
      ensures Valid() && FreshMemory(State().mm)
      ensures this.processor == processor && this.driver == driver && mmu == processor.mmu && memory == mmu.memory
      ensures manager.UseHoles? == useHoles && fresh(manager.Repr())
      ensures State() == Machine(processor.mmu.cfg, State().mm, processList, 0, 0, 0, processor.mmu.tlb.Model(), 0, 0)
    {
      this.cfg, this.driver, this.memory, this.mmu, this.processor :=
        processor.mmu.cfg, driver, processor.mmu.memory, processor.mmu, processor;
      if useHoles {
        var h := new HoleList.PhysMemManagerHole(memorySize, true);
        manager := UseHoles(h);
      } else {
        var b := new Bitmap.PhysMemManagerBitmap(memorySize);
        manager := UseBitmap(b);
      }
      this.processList := processList;
      current, nPageFaults, nContextSwitches, memoryMapProcess := 0, 0, 0, map[];
      new;
      FreshManager(memorySize / PAGE_SIZE, manager.Model());
    }

    /** Root tables for all processes, in order, as far as memory goes. */
    method AllocateRoots() returns (e: Option<Error>)
      requires Valid() && current == 0 && Ok(State().mm.mgr)
      modifies Repr()
      ensures Valid() && fresh(Repr() - old(Repr()))
      ensures State() == old(State()).(mm := Runs.BootTables(old(State()).mm, old(processList)).s)
      ensures e == BootError(Runs.BootTables(old(State()).mm, old(processList)))
    {
      hide Memory.AllocatePageTable, Runs.BootTables, OSKernel.State, OSKernel.MM;
      ghost var k := State();
      ghost var goal := Runs.BootTables(k.mm, k.ready);
      var i := 0;
      assert processList[0..] == processList;
      while i < |processList|
        invariant 0 <= i <= |processList|
        invariant Valid() && fresh(Repr() - old(Repr())) && Ok(State().mm.mgr)
        invariant State() == k.(mm := State().mm)
        invariant Runs.BootTables(State().mm, processList[i..]) == goal
      {
        var next := i + 1;
        BootNext(State().mm, processList, i, next);
        e := driver.AllocatePageTable(this, processList[i]);
        if e.Some? {
          return;
        }
        i := next;
      }
      BootDone(State().mm, processList);
      e := None;
    }

    /** Asks the page manager for count pages. */
    method ClaimPages(count: u64) returns (r: Option<nat>)
      requires Valid()
      modifies manager.Repr()
      ensures Valid() && fresh(Repr() - old(Repr()))
      ensures r == Allocate(old(State().mm).mgr, count).0
      ensures State() == old(State()).(mm := old(State().mm).(mgr := Allocate(old(State().mm).mgr, count).1))
    {
      hide Allocate;
      r := manager.AllocatePages(count);
    }

    /** Records bytes handed to a process. */
    method Record(pid: nat, g: Grant)
      requires Valid()
      modifies this`memoryMapProcess
      ensures Valid() && Repr() == old(Repr())
      ensures State() == old(State()).(mm := Charge(old(State().mm), pid, g))
    {
      var grants := if pid in memoryMapProcess then memoryMapProcess[pid] else [];
      memoryMapProcess := memoryMapProcess[pid := grants + [g]];
    }

    /** Memory for the current process, in whole pages. */
    method AllocateMemory(size: u64, align: nat) returns (r: Option<nat>, e: Option<Error>)
      requires Valid()
      modifies Repr()
      ensures Valid() && fresh(Repr() - old(Repr()))
      ensures e == if size == 0 then Some(ZeroSize) else if align > PAGE_SIZE then Some(UnsupportedAlignment)
                   else if r.None? then Some(MemoryFull) else None
      ensures size == 0 || align > PAGE_SIZE ==> State() == old(State()) && r == None
      ensures size > 0 && align <= PAGE_SIZE ==>
                r == Memory.AllocateMemory(old(State().mm), old(current), size).0 &&
                State() == old(State()).(mm := Memory.AllocateMemory(old(State().mm), old(current), size).1)
    {
      if size == 0 {
        return None, Some(ZeroSize);
      }
      if align > PAGE_SIZE {
        return None, Some(UnsupportedAlignment);
      }
      var rounded := (size + (PAGE_SIZE - 1)) % TWO_64 / PAGE_SIZE * PAGE_SIZE;
      var pages := rounded / PAGE_SIZE;
      assert pages == PagesFor(size) && rounded == pages * PAGE_SIZE;
      r := ClaimPages(pages);
      if r.None? {
        return None, Some(MemoryFull);
      }
      Record(current, Grant(r.value, rounded));
      e := None;
    }

    method ReleaseMemory(ptr: nat, size: u64)
      requires Valid()
      requires manager.UseBitmap? ==> PageIndex(ptr) + PagesFor(size) <= memory.frames.Length
      modifies manager.Repr()
      ensures Valid() && Repr() <= old(Repr())
      ensures manager.Model() == Teardown.ReleaseMemory(old(manager.Model()), ptr, size)
    {
      var rounded := (size + (PAGE_SIZE - 1)) % TWO_64 / PAGE_SIZE * PAGE_SIZE;
      assert rounded / PAGE_SIZE == PagesFor(size);
      manager.ReleasePages(ptr, rounded / PAGE_SIZE);
    }

    /** Entry i of table f, as it lies in memory. */
    function ReadEntry(f: nat, i: Index): (e: Entry)
      requires BASE_FRAME <= f < BASE_FRAME + memory.frames.Length
      reads memory.frames
      ensures e == At(memory.Contents(), f)[i]
    {
      memory.Entry(f, i)
    }

    method WriteEntry(f: nat, i: Index, e: Entry)
      requires Valid() && f in State().mm.mem
      modifies memory.frames
      ensures Valid() && Repr() == old(Repr())
      ensures State() == old(State()).(mm := old(State()).mm.(mem := SetEntry(old(State()).mm.mem, f, i, e)))
    {
      memory.SetEntry(f, i, e);
    }

    method ClearTable(f: nat)
      requires Valid() && f in State().mm.mem
      modifies memory.frames
      ensures Valid() && Repr() == old(Repr())
      ensures State() == old(State()).(mm := old(State()).mm.(mem :=
                old(State()).mm.mem[f := Cleared(At(old(State()).mm.mem, f))]))
    {
      memory.Clear(f);
    }

    method CountFault()
      requires Valid()
      modifies this`nPageFaults
      ensures Valid() && Repr() == old(Repr())
      ensures State() == old(State()).(faults := old(State()).faults + 1)
    {
      nPageFaults := nPageFaults + 1;
    }

    /** A fresh page, recorded for the running process. */
    method ClaimFaultPage() returns (r: Option<nat>)
      requires Valid()
      modifies this`memoryMapProcess, manager.Repr()
      ensures Valid() && fresh(Repr() - old(Repr()))
      ensures r == Allocate(old(State()).mm.mgr, 1).0
      ensures var mm := old(State()).mm;
        State() == old(State()).(mm :=
          if r.None? then mm.(mgr := Allocate(mm.mgr, 1).1) else FaultCharged(mm, old(current)))
    {
      hide Allocate, OSKernel.State, OSKernel.MM, OSKernel.Valid;
      r := ClaimPages(1);
      if r.Some? {
        Record(current, Grant(r.value, PAGE_SIZE));
      }
    }

    /** Maps a fresh page at the faulting address of the running process. */
    method PageFaultHandler(faultAddr: u64, ghost role: Roles) returns (e: Option<Error>)
      requires Valid() && Shaped(State().mm, role)
      modifies Repr()
      ensures Valid() && fresh(Repr() - old(Repr()))
      ensures e == HandleFault(old(State()), faultAddr).0
      ensures State() == HandleFault(old(State()), faultAddr).1
    {
      hide HandleFault, Shaped, Memory.SetMapping, Allocate, OSKernel.State, OSKernel.MM, OSKernel.Valid;
      ghost var k := State();
      FaultUnfolds(k, faultAddr);
      FaultPrepared(k.mm, role, current);
      CountFault();
      var vAddr := PageBase(faultAddr);
      var pPage := ClaimFaultPage();
      if pPage.None? {
        return Some(MemoryFull);
      }
      e := driver.SetMapping(this, current, vAddr, pPage.value, role);
    }

    /** Releases the tables of the process, and then all that was recorded for it. */
    method TerminateProcess(proc: nat, ghost o: Account)
      requires Valid() && Sound(State().mm, o) && proc in driver.pageTables
      modifies this`memoryMapProcess, driver`pageTables, manager.Repr()
      ensures Valid() && manager.Repr() <= old(manager.Repr())
      ensures State() == old(State()).(mm := Teardown.Terminate(old(State()).mm, proc))
    {
      hide Sound, OSKernel.State, OSKernel.MM;
      ghost var k := State();
      ghost var fs := LedgerInRam(k.mm, o, proc);
      driver.ReleasePageTable(this, proc, o);
      if proc in memoryMapProcess {
        ReleaseRecorded(proc, fs);
        EraseRecord(proc);
      } else {
        assert k.mm.ledger - {proc} == k.mm.ledger;
      }
    }

    /** Releases each recorded allocation of the process. */
    method ReleaseRecorded(proc: nat, ghost fs: seq<nat>)
      requires Valid() && proc in memoryMapProcess && memoryMapProcess[proc] == FrameGrants(fs)
      requires forall f :: f in fs ==> f in memory.Contents()
      modifies manager.Repr()
      ensures Valid() && manager.Repr() <= old(manager.Repr())
      ensures manager.Model() == Teardown.ReleaseGrants(old(manager.Model()), memoryMapProcess[proc])
      ensures State() == old(State()).(mm := WithMgr(old(State()).mm, manager.Model()))
    {
      hide Teardown.ReleaseMemory, PageIndex, PagesFor;
      var grants := memoryMapProcess[proc];
      ghost var goal := Teardown.ReleaseGrants(manager.Model(), grants);
      var i := 0;
      assert grants[0..] == grants;
      while i < |grants|
        invariant 0 <= i <= |grants|
        invariant Valid() && manager.Repr() <= old(manager.Repr())
        invariant Teardown.ReleaseGrants(manager.Model(), grants[i..]) == goal
      {
        assert grants[i] == Frame(fs[i]) && fs[i] in fs && fs[i] in memory.Contents();
        FrameInRange(fs[i], memory.frames.Length);
        ghost var m, was := manager.Model(), i;
        ReleaseMemory(grants[i].addr, grants[i].size);
        i := i + 1;
        Teardown.ReleaseNext(m, grants, was, i);
      }
      Teardown.ReleaseNone(manager.Model(), grants);
    }

    method Enqueue(proc: nat)
      requires Valid()
      modifies this`processList
      ensures Valid() && Repr() == old(Repr())
      ensures State() == old(State()).(ready := old(State()).ready + [proc])
    {
      processList := processList + [proc];
    }

    /** Takes the front of the ready queue, or no process when it is empty. */
    method Dequeue() returns (proc: nat)
      requires Valid()
      modifies this`processList
      ensures Valid() && Repr() == old(Repr())
      ensures proc == if old(processList) == [] then 0 else old(processList)[0]
      ensures State() == old(State()).(ready := if old(processList) == [] then [] else old(processList)[1..])
    {
      proc := 0;
      if processList != [] {
        proc := processList[0];
        processList := processList[1..];
      }
    }

    /** The buffer takes the new process's tag, or forgets everything. */
    method SwitchBuffer(next: nat)
      requires Valid()
      modifies mmu.tlb
      ensures Valid() && Repr() == old(Repr())
      ensures State() == old(State()).(tlb :=
                if !cfg.tlbOn then old(State()).tlb
                else if cfg.asidOn then Tlb.SetAsid(old(State()).tlb, next) else Tlb.Flush(old(State()).tlb))
    {
      if cfg.tlbOn {
        if cfg.asidOn {
          mmu.tlb.SetAsid(next);
        } else {
          mmu.tlb.Flush();
        }
      }
    }

    /** Kernel, processor and MMU turn to a process; the MMU keeps its root when there is none. */
    method SetProcess(next: nat)
      requires Valid()
      modifies this`current, this`nContextSwitches, processor, mmu
      ensures Valid() && Repr() == old(Repr())
      ensures State() == old(State()).(current := next, cpu := next, switches := old(State()).switches + 1,
                root := if next != 0 then PageTableAddr(old(State()).mm, next) else old(State()).root)
    {
      if next != 0 {
        mmu.root := driver.GetPageTable(next);
      }
      current, processor.current, nContextSwitches := next, next, nContextSwitches + 1;
    }

    /** Makes next the running process; nothing to do when it is running already. */
    method ContextSwitch(next: nat)
      requires Valid()
      modifies this`current, this`nContextSwitches, processor, mmu, mmu.tlb
      ensures Valid() && Repr() == old(Repr())
      ensures State() == SwitchTo(old(State()), next)
    {
      if next == current {
        return;
      }
      SetProcess(next);
      SwitchBuffer(next);
    }

    /** A process that exits is terminated, one that was interrupted queues up; the next one runs. */
    method InterruptHandler(request: Interrupt, ghost o: Account)
      requires Valid() && Sound(State().mm, o) && (request.SyscallExit? ==> current in driver.pageTables)
      modifies Repr()
      ensures Valid() && Repr() <= old(Repr())
      ensures State() == HandleInterrupt(old(State()), request)
    {
      if request.SyscallExit? {
        TerminateProcess(current, o);
      } else if current != 0 {
        Enqueue(current);
      }
      var next := Dequeue();
      ContextSwitch(next);
    }

    /** The running process goes back to the queue, and no process runs. */
    method Unload()
      requires Valid()
      modifies this`processList, processor
      ensures Valid() && Repr() == old(Repr())
      ensures State() == old(State()).(ready := Runs.Remaining(old(State())), cpu :=
                if current != 0 then 0 else old(State()).cpu)
    {
      if current != 0 {
        processList := processList + [current];
        processor.current := 0;
      }
    }

    /** Ends the processes that remain; says whether all memory came back. */
    method Shutdown(ghost o: Account) returns (allReleased: bool)
      requires Valid() && Inv(State(), o)
      modifies Repr()
      ensures Valid() && Repr() <= old(Repr())
      ensures Ended(old(State()), State().mm) && State().ready == Runs.Remaining(old(State()))
      ensures allReleased <==> Used(State().mm.mgr) == 0
    {
      hide Inv, Ending, Ended, Runs.Remaining, OSKernel.State, OSKernel.MM, OSKernel.Valid;
      ghost var goal := EndingBegins(State(), o);
      Unload();
      TerminateFrom(o, goal);
      allReleased := manager.AllReleased();
    }

    /** Ends the processes in the queue, one after the other. */
    method TerminateFrom(ghost o: Account, ghost goal: Memory.State)
      requires Valid() && Sound(State().mm, o) && Ending(State().mm, processList, goal)
      modifies Repr()
      ensures Valid() && Repr() <= old(Repr())
      ensures State().mm == goal && processList == old(processList)
    {
      ghost var oc := o;
      var i := 0;
      assert processList[0..] == processList;
      while i < |processList|
        invariant 0 <= i <= |processList|
        invariant Valid() && Repr() <= old(Repr()) && processList == old(processList)
        invariant Sound(State().mm, oc)
        invariant Ending(State().mm, processList[i..], goal)
      {
        var next := i + 1;
        EndingStep(State().mm, oc, processList, i, next, goal);
        TerminateProcess(processList[i], oc);
        oc := Teardown.Closed(oc, processList[i]);
        i := next;
      }
    }

    method EraseRecord(proc: nat)
      requires Valid()
      modifies this`memoryMapProcess
      ensures Valid() && Repr() == old(Repr())
      ensures State() == old(State()).(mm := old(State()).mm.(ledger := old(State()).mm.ledger - {proc}))
    {
      memoryMapProcess := memoryMapProcess - {proc};
    }
  }

  /** The objects a kernel is given. */
  ghost function Hardware(processor: Processor, driver: MmuDriver): set<object> {
    {driver, processor, processor.mmu, processor.mmu.tlb, processor.mmu.tlb.storage, processor.mmu.memory,
     processor.mmu.memory.frames}
  }

  /** The machine before it boots: nothing runs and no translation is cached. */
  ghost predicate PowerOn(processor: Processor, driver: MmuDriver)
    reads processor, processor.mmu, processor.mmu.tlb, processor.mmu.tlb.storage, driver
  {
    && processor.mmu.tlb.Valid() && processor.mmu.tlb.Model() == Runs.FreshTlb(processor.mmu.tlb.storage[..])
    && processor.current == 0 && processor.mmu.root == 0
    && driver.pageTables == map[] && driver.bytesAllocated == 0
  }

  /** A kernel with a root table for every process, or the exception that kept it from starting.
      Fresh is memory before the roots are allocated. */
  method Boot(processor: Processor, driver: MmuDriver, memorySize: nat, useHoles: bool, processList: seq<nat>)
    returns (kernel: OSKernel?, e: Option<Error>, ghost fresh0: Memory.State)
    requires processor.mmu.memory.frames.Length == memorySize / PAGE_SIZE
    requires PowerOn(processor, driver)
    modifies Hardware(processor, driver)
    ensures kernel == null <==> e.Some?
    ensures memorySize > MAX_PAGES * PAGE_SIZE ==> e == Some(TooMuchMemory)
    ensures memorySize == 0 ==> e == Some(MapFailed)
    ensures 0 < memorySize <= MAX_PAGES * PAGE_SIZE ==>
              && FreshMemory(fresh0) && Pages(fresh0.mgr) == memorySize / PAGE_SIZE && fresh0.mgr.HoleMgr? == useHoles
              && e == BootError(Runs.BootTables(fresh0, processList))
    ensures e.None? ==>
              && kernel.Valid() && kernel.processor == processor && kernel.driver == driver
              && fresh(kernel.Repr() - Hardware(processor, driver)) && kernel.manager.UseHoles? == useHoles
              && var slots := old(processor.mmu.tlb.storage[..]); var mm := Runs.BootTables(fresh0, processList).s;
                kernel.State() == Runs.FreshMachine(processor.mmu.cfg, mm, processList, slots)
  {
    kernel, fresh0 := null, NoMemory();
    if memorySize > MAX_PAGES * PAGE_SIZE {
      return null, Some(TooMuchMemory), fresh0;
    }
    if memorySize == 0 {
      return null, Some(MapFailed), fresh0;
    }
    var k := new OSKernel(processor, driver, memorySize, useHoles, processList);
    fresh0 := k.State().mm;
    e := k.AllocateRoots();
    if e.None? {
      kernel := k;
    }
  }

  class MmuDriver {
    var pageTables: map<nat, nat>
    var bytesAllocated: nat

    constructor ()
      ensures pageTables == map[] && bytesAllocated == 0
    {
      pageTables, bytesAllocated := map[], 0;
    }

    /** The root of a process's tables as an address, 0 when it has none. */
    function GetPageTable(proc: nat): (addr: nat)
      reads this
      ensures addr % PAGE_SIZE == 0
      ensures if proc in pageTables then addr / PAGE_SIZE == pageTables[proc] else addr == 0
    {
      if proc in pageTables then pageTables[proc] * PAGE_SIZE else 0
    }

    method CountBytes(kernel: OSKernel)
      requires kernel.Valid() && kernel.driver == this
      modifies this`bytesAllocated
      ensures kernel.Valid() && kernel.Repr() == old(kernel.Repr())
      ensures kernel.State() == old(kernel.State()).(mm :=
                old(kernel.State()).mm.(bytes := old(kernel.State()).mm.bytes + PAGE_SIZE))
    {
      bytesAllocated := bytesAllocated + PAGE_SIZE;
    }

    /** A cleared table from the kernel's memory. */
    method MakeTable(kernel: OSKernel) returns (r: Option<nat>)
      requires kernel.Valid() && kernel.driver == this && Ok(kernel.State().mm.mgr)
      modifies kernel.Repr()
      ensures kernel.Valid() && fresh(kernel.Repr() - old(kernel.Repr()))
      ensures r == NewTable(old(kernel.State()).mm, old(kernel.current)).0
      ensures kernel.State() == old(kernel.State()).(mm := NewTable(old(kernel.State()).mm, old(kernel.current)).1)
    {
      hide OSKernel.State, OSKernel.MM, OSKernel.Valid, Allocate;
      OnePage();
      AllocateOne(kernel.State().mm.mgr);
      var addr, e := kernel.AllocateMemory(PAGE_SIZE, PAGE_SIZE);
      if addr.None? {
        return None;
      }
      var f := addr.value / PAGE_SIZE;
      CountBytes(kernel);
      kernel.ClearTable(f);
      r := Some(f);
    }

    /** The table entry i of a table points to; a missing one is made, cleared and linked. */
    method NextTable(kernel: OSKernel, table: nat, i: Index) returns (r: Option<nat>)
      requires kernel.Valid() && kernel.driver == this && Ok(kernel.State().mm.mgr) && table in kernel.State().mm.mem
      modifies kernel.Repr()
      ensures kernel.Valid() && fresh(kernel.Repr() - old(kernel.Repr()))
      ensures r == Memory.NextTable(old(kernel.State()).mm, old(kernel.current), table, i).0
      ensures kernel.State() ==
              old(kernel.State()).(mm := Memory.NextTable(old(kernel.State()).mm, old(kernel.current), table, i).1)
    {
      hide NewTable, Memory.NextTable, OSKernel.State, OSKernel.MM, OSKernel.Valid, At, SetEntry, Pointer, Ok;
      NextTableFound(kernel.State().mm, kernel.current, table, i);
      var e := kernel.ReadEntry(table, i);
      if !e.valid {
        ghost var k := kernel.State();
        var newTable := MakeTable(kernel);
        if newTable.None? {
          return None;
        }
        ghost var k1 := kernel.State();
        kernel.WriteEntry(table, i, Pointer(newTable.value));
        e := kernel.ReadEntry(table, i);
        NextTableMade(k, k1, kernel.State(), table, i);
      }
      r := Some(e.ppn);
    }

    /** The mapping loop: one level per round, then the leaf entry. */
    method SetMapping(kernel: OSKernel, proc: nat, vAddr: u64, pAddr: nat, ghost role: Roles)
      returns (e: Option<Error>)
      requires kernel.Valid() && kernel.driver == this && Shaped(kernel.State().mm, role)
      modifies kernel.Repr()
      ensures kernel.Valid() && fresh(kernel.Repr() - old(kernel.Repr()))
      ensures var r := Memory.SetMapping(old(kernel.State()).mm, old(kernel.current), proc, vAddr, pAddr);
        && kernel.State() == old(kernel.State()).(mm := r.s)
        && e == if r.Failed? then Some(r.error) else None
    {
      hide MapsTo, Memory.NextTable, Shaped, OSKernel.State, OSKernel.MM, OSKernel.Valid;
      if proc !in pageTables {
        return Some(NoRootTable);
      }
      ghost var k := kernel.State();
      ghost var path, d := DriverPath(vAddr), pAddr / PAGE_SIZE;
      ghost var goal := Memory.SetMapping(k.mm, k.current, proc, vAddr, pAddr);
      MapBegins(k.mm, role, k.current, proc, vAddr, pAddr);
      var table: nat := pageTables[proc];
      ghost var roleNow, j := role, 0;
      var lv := 3;
      while lv > 0
        invariant 0 <= lv <= 3 && lv + j == 3
        invariant kernel.Valid() && fresh(kernel.Repr() - old(kernel.Repr()))
        invariant kernel.State() == k.(mm := kernel.State().mm)
        invariant MapsTo(kernel.State().mm, roleNow, k.current, table, path, j, d, goal)
      {
        var i := DriverIndex(vAddr, lv);
        assert path[j] == i;
        ghost var below := j + 1;
        ghost var role1 := MapOneLevel(kernel.State().mm, roleNow, k.current, table, path, j, below, d, goal);
        var next := NextTable(kernel, table, i);
        if next.None? {
          return Some(MemoryFull);
        }
        table, lv, roleNow, j := next.value, lv - 1, role1, below;
      }
      MapLeaf(kernel.State().mm, roleNow, k.current, table, path, d, goal);
      kernel.WriteEntry(table, DriverIndex(vAddr, 0), Leaf(pAddr / PAGE_SIZE));
      e := None;
    }

    /** Releases the table and every table below it, depth first. The level only serves to show that
        the recursion ends: entries at level 0 never point to tables. */
    method ReleasePageTableInternal(kernel: OSKernel, table: nat, ghost lv: nat, ghost roots: map<nat, nat>,
            ghost role: Roles)
      requires kernel.Valid() && kernel.driver == this && TreeOk(kernel.memory.Contents(), roots, role)
      requires table in role && role[table].Inner? && |role[table].path| + lv == 3
      modifies kernel.manager.Repr()
      ensures kernel.Valid() && kernel.manager.Repr() <= old(kernel.manager.Repr())
      ensures kernel.manager.Model() == Released(old(kernel.manager.Model()), kernel.memory.Contents(), table, lv, 0)
      decreases lv
    {
      hide Released, TreeOk, Teardown.ReleaseMemory, Teardown.ReleaseGrants, PageIndex;
      ghost var mem := kernel.memory.Contents();
      ghost var goal := Released(kernel.manager.Model(), mem, table, lv, 0);
      InnerInRam(mem, roots, role, table);
      var y := 0;
      while y < 512
        invariant 0 <= y <= 512
        invariant kernel.Valid() && kernel.manager.Repr() <= old(kernel.manager.Repr())
        invariant Released(kernel.manager.Model(), mem, table, lv, y) == goal
      {
        ghost var m := kernel.manager.Model();
        ghost var y0, below := y, if lv > 0 then lv - 1 else 0;
        ChildInner(mem, roots, role, table, y);
        var e := kernel.ReadEntry(table, y);
        if e.valid && !e.read {
          ReleasePageTableInternal(kernel, e.ppn, below, roots, role);
        }
        y := y + 1;
        ReleaseStep(m, mem, table, lv, below, y0, y);
      }
      FrameInRange(table, kernel.memory.frames.Length);
      ReleaseLast(kernel.manager.Model(), mem, table, lv);
      kernel.ReleaseMemory(table * PAGE_SIZE, PAGE_SIZE);
    }

    /** Releases the tables of the process and forgets its root. */
    method ReleasePageTable(kernel: OSKernel, proc: nat, ghost o: Account)
      requires kernel.Valid() && kernel.driver == this && Sound(kernel.State().mm, o) && proc in pageTables
      modifies this`pageTables, kernel.manager.Repr()
      ensures kernel.Valid() && kernel.manager.Repr() <= old(kernel.manager.Repr())
      ensures kernel.State() == old(kernel.State()).(mm := Teardown.ReleasePageTable(old(kernel.State()).mm, proc))
    {
      ghost var k := kernel.State();
      RootRole(k.mm, o, proc);
      ReleasePageTableInternal(kernel, pageTables[proc], 3, k.mm.roots, o.role);
      assert kernel.State() == k.(mm := WithMgr(k.mm, kernel.manager.Model()));
      Forget(kernel, proc);
    }

    method Forget(kernel: OSKernel, proc: nat)
      requires kernel.Valid() && kernel.driver == this
      modifies this`pageTables
      ensures kernel.Valid() && kernel.Repr() == old(kernel.Repr())
      ensures kernel.State() == old(kernel.State()).(mm :=
                old(kernel.State()).mm.(roots := old(kernel.State()).mm.roots - {proc}))
    {
      pageTables := pageTables - {proc};
    }

    /** A root table for a process, made with the kernel's current owner charged. */
    method AllocatePageTable(kernel: OSKernel, proc: nat) returns (e: Option<Error>)
      requires kernel.Valid() && kernel.driver == this && Ok(kernel.State().mm.mgr)
      modifies kernel.Repr()
      ensures kernel.Valid() && fresh(kernel.Repr() - old(kernel.Repr()))
      ensures var r := Memory.AllocatePageTable(old(kernel.State()).mm, old(kernel.current), proc);
        && kernel.State() == old(kernel.State()).(mm := r.s)
        && e == if r.Failed? then Some(r.error) else None
    {
      var table := MakeTable(kernel);
      if table.None? {
        return Some(MemoryFull);
      }
      Enter(kernel, proc, table.value);
      e := None;
    }

    /** Enters a root; one that is there already stays. */
    method Enter(kernel: OSKernel, proc: nat, table: nat)
      requires kernel.Valid() && kernel.driver == this
      modifies this`pageTables
      ensures kernel.Valid() && kernel.Repr() == old(kernel.Repr())
      ensures var mm := old(kernel.State()).mm;
        kernel.State() == old(kernel.State()).(mm :=
          mm.(roots := if proc in mm.roots then mm.roots else mm.roots[proc := table]))
    {
      if proc !in pageTables {
        pageTables := pageTables[proc := table];
      }
    }
  }

  /* ----- the processor ----- */

  /** What is left of the memory traces of the processes; each is read from its front. The accesses
      read so far are logged for specification. */
  class Workload {
    var left: Schedule.Traces
    ghost var log: seq<(nat, u64)>

    constructor (traces: Schedule.Traces)
      ensures left == traces && log == []
    {
      left, log := traces, [];
    }

    predicate Finished(pid: nat)
      reads this
    {
      pid !in left || left[pid] == []
    }

    method GetMemoryAccess(pid: nat) returns (addr: u64)
      requires !Finished(pid)
      modifies this
      ensures addr == old(left[pid])[0] && left == old(left)[pid := old(left[pid])[1..]]
      ensures log == old(log) + [(pid, addr)]
    {
      addr := left[pid][0];
      left := left[pid := left[pid][1..]];
      log := log + [(pid, addr)];
    }
  }

  class Processor {
    const mmu: Mmu
    const timerInterval: nat
    var current: nat

    constructor (mmu: Mmu, timerInterval: nat)
      ensures this.mmu == mmu && this.timerInterval == timerInterval && current == 0
    {
      this.mmu, this.timerInterval, current := mmu, timerInterval, 0;
    }

    /** The parts belong together; the workload is no part of the kernel. */
    ghost predicate Ready(kernel: OSKernel, work: Workload)
      reads kernel.Repr()
    {
      kernel.Valid() && kernel.processor == this && work !in kernel.Repr()
    }

    /** Takes the next access of the running process; the kernel does not notice. */
    method Fetch(kernel: OSKernel, work: Workload) returns (addr: u64)
      requires Ready(kernel, work) && !work.Finished(current)
      modifies work
      ensures Ready(kernel, work) && kernel.mmu == mmu && kernel.Repr() == old(kernel.Repr())
      ensures kernel.State() == old(kernel.State())
      ensures var p := current;
        && addr == old(work.left[p])[0] && work.left == old(work.left)[p := old(work.left[p])[1..]]
        && work.log == old(work.log) + [(p, addr)]
    {
      addr := work.GetMemoryAccess(current);
    }

    /** The next access of the running process. */
    method NextAccess(kernel: OSKernel, work: Workload, ghost j: Schedule.Job, ghost o: Account,
            ghost whole: Schedule.Traces)
      returns (e: Option<Error>, ghost o': Account)
      requires Ready(kernel, work) && JobAt(kernel, work, j)
      requires Schedule.JobInv(j, o, whole) && j.k.current != 0 && Schedule.LeftOf(j) != []
      modifies kernel.Repr(), work
      ensures Ready(kernel, work) && fresh(kernel.Repr() - old(kernel.Repr()))
      ensures JobAt(kernel, work, Schedule.Advance(j)) && e == Schedule.Advance(j).error
      ensures Schedule.JobInv(Schedule.Advance(j), o', whole)
      ensures Schedule.Advance(j).k.current == j.k.current
    {
      hide Access, Schedule.Advance, Schedule.JobInv, Schedule.LeftOf, Inv, OSKernel.State, OSKernel.MM,
          OSKernel.Valid;
      o' := AdvanceIs(j, o, whole);
      ghost var next := Schedule.Advance(j);
      var addr := Fetch(kernel, work);
      var t := mmu.ProcessMemAccess(kernel, addr, o);
      assert kernel.State() == next.k && work.left == next.left && work.log == next.log;
      e := if t.Trap? then Some(t.error) else None;
    }

    /** Runs the current process for a time quantum or to the end of its trace. */
    method RunProcess(kernel: OSKernel, work: Workload, ghost j: Schedule.Job, ghost o: Account,
            ghost whole: Schedule.Traces)
      returns (e: Option<Error>, ghost o': Account)
      requires Ready(kernel, work) && JobAt(kernel, work, j)
      requires Schedule.JobInv(j, o, whole) && j.k.current != 0 && j.error.None?
      modifies kernel.Repr(), work
      ensures Ready(kernel, work) && fresh(kernel.Repr() - old(kernel.Repr()))
      ensures JobAt(kernel, work, Schedule.Burst(j, timerInterval)) && e == Schedule.Burst(j, timerInterval).error
      ensures Schedule.JobInv(Schedule.Burst(j, timerInterval), o', whole)
      ensures Schedule.Burst(j, timerInterval).k.current == j.k.current
    {
      hide BurstTo, Schedule.Advance, Schedule.Burst, Schedule.JobInv, OSKernel.State, OSKernel.MM, OSKernel.Valid;
      ghost var goal := Schedule.Burst(j, timerInterval);
      ghost var i, n := j, timerInterval;
      BurstBegins(i, n);
      o', e := o, None;
      RunsCurrent(j, o, whole);
      var accesses := 0;
      while !work.Finished(current) && accesses < timerInterval
        invariant accesses + n == timerInterval
        invariant Ready(kernel, work) && fresh(kernel.Repr() - old(kernel.Repr()))
        invariant JobAt(kernel, work, i) && Schedule.JobInv(i, o', whole)
        invariant i.k.cpu == i.k.current == j.k.current && e == i.error && e.None?
        invariant BurstTo(i, n, goal)
      {
        ghost var fewer := n - 1;
        BurstGoesOn(i, n, fewer, goal);
        e, o' := NextAccess(kernel, work, i, o', whole);
        RunsCurrent(Schedule.Advance(i), o', whole);
        accesses := accesses + 1;
        i, n := Schedule.Advance(i), fewer;
        if e.Some? {
          BurstEnds(i, n, goal);
          return;
        }
      }
      BurstEnds(i, n, goal);
    }

    /** A time quantum of the current process, and the interrupt after it. */
    method RunRound(kernel: OSKernel, work: Workload, ghost j: Schedule.Job, ghost o: Account,
            ghost whole: Schedule.Traces)
      returns (e: Option<Error>)
      requires Ready(kernel, work) && JobAt(kernel, work, j)
      requires Schedule.JobInv(j, o, whole) && !Schedule.Stopped(j) && timerInterval > 0
      modifies kernel.Repr(), work
      ensures Ready(kernel, work) && fresh(kernel.Repr() - old(kernel.Repr()))
      ensures JobAt(kernel, work, Schedule.Round(j, timerInterval)) && e == Schedule.Round(j, timerInterval).error
    {
      hide Schedule.Burst, HandleInterrupt, OSKernel.State, Sound, TlbCoherent, Schedule.TracesOk;
      ghost var b, ob := Schedule.Burst(j, timerInterval), o;
      e, ob := RunProcess(kernel, work, j, o, whole);
      if e.Some? {
        return;
      }
      RunningRoot(b.k, ob);
      if work.Finished(current) {
        kernel.InterruptHandler(SyscallExit, ob);
      } else {
        kernel.InterruptHandler(Timer, ob);
      }
    }

    /** With no current process, a timer interrupt dispatches the first. */
    method Start(kernel: OSKernel, work: Workload, ghost j: Schedule.Job, ghost o: Account,
            ghost whole: Schedule.Traces)
      requires Ready(kernel, work) && JobAt(kernel, work, j) && Schedule.JobInv(j, o, whole)
      modifies kernel.Repr()
      ensures Ready(kernel, work) && fresh(kernel.Repr() - old(kernel.Repr()))
      ensures JobAt(kernel, work, Schedule.Started(j))
    {
      hide HandleInterrupt, OSKernel.State, Sound, TlbCoherent;
      if current == 0 {
        kernel.InterruptHandler(Timer, o);
      }
    }

    /** Runs all processes to the end of their traces, a time quantum at a time. */
    method Run(kernel: OSKernel, work: Workload, ghost j: Schedule.Job, ghost o: Account, ghost whole: Schedule.Traces)
      returns (e: Option<Error>, ghost r: Schedule.Job, ghost o': Account, ghost es: seq<Runs.Event>)
      requires Ready(kernel, work) && JobAt(kernel, work, j)
      requires Schedule.JobInv(j, o, whole) && j.error.None?
      modifies kernel.Repr(), work
      ensures Ready(kernel, work) && fresh(kernel.Repr() - old(kernel.Repr()))
      ensures JobAt(kernel, work, r) && Schedule.Leads(j, o, r, o', whole, es)
      ensures timerInterval == 0 ==> e == Some(NoTimerInterval) && r == j
      ensures timerInterval > 0 ==>
                r == Schedule.Rounds(Schedule.Started(j), timerInterval, Schedule.Work(j.left, Runs.Remaining(j.k)))
      ensures timerInterval > 0 ==> e == r.error && (e.Some? ==> e == Some(MemoryFull))
      ensures timerInterval > 0 && e.None? ==>
                && kernel.State().mm.roots == map[] && kernel.processList == [] && Schedule.EachExits(j.k, es)
                && forall p :: p in whole ==>
                     Schedule.TraceOf(work.log, p) == whole[p] && p in work.left && work.left[p] == []
    {
      hide RoundsTo, Runs.Remaining, Runs.Population, QueueOk, OSKernel.Valid, Schedule.TraceOf, Schedule.Started,
          Schedule.Round, Schedule.Rounds, Schedule.Work, Schedule.TracesOk, Schedule.Leads, OSKernel.State, Sound,
          TlbCoherent;
      if timerInterval == 0 {
        LeadsNowhere(j, o, whole);
        return Some(NoTimerInterval), j, o, [];
      }
      ghost var i, n := Schedule.Started(j), Schedule.Work(j.left, Runs.Remaining(j.k));
      StartedReady(j, o, whole);
      o', es := Schedule.WholeRun(j, o, whole, timerInterval);
      ghost var goal, oc := Schedule.Rounds(i, timerInterval, n), o;
      r := goal;
      RoundsBegin(i, timerInterval, n);
      Start(kernel, work, j, o, whole);
      e := None;
      while current != 0
        invariant Ready(kernel, work) && fresh(kernel.Repr() - old(kernel.Repr()))
        invariant JobAt(kernel, work, i) && Schedule.JobInv(i, oc, whole) && Schedule.Busy(i.k)
        invariant e == i.error && e.None?
        invariant Schedule.Work(i.left, Runs.Remaining(i.k)) <= n
        invariant RoundsTo(i, timerInterval, n, goal)
        decreases n
      {
        ghost var fewer := if n > 0 then n - 1 else 0;
        ghost var o1 := NextRound(i, oc, whole, timerInterval, n, fewer, goal);
        e := RunRound(kernel, work, i, oc, whole);
        i, oc, n := Schedule.Round(i, timerInterval), o1, fewer;
        if e.Some? {
          return;
        }
      }
      RoundsEnd(i, timerInterval, n, goal);
    }
  }

  /** Kernel and workload are in the state of job j. */
  ghost predicate JobAt(kernel: OSKernel, work: Workload, j: Schedule.Job)
    reads kernel.Repr(), work
  {
    kernel.State() == j.k && work.left == j.left && work.log == j.log
  }

  /* ----- a whole simulation ----- */

  /** Runs all traces of a machine that has booted, and shuts the kernel down. */
  method RunAndStop(kernel: OSKernel, work: Workload, ghost j: Schedule.Job, ghost o: Account,
          ghost fresh0: Memory.State, ghost pids: seq<nat>)
    returns (e: Option<Error>, allReleased: bool)
    requires kernel.processor.Ready(kernel, work) && JobAt(kernel, work, j) && j == Schedule.Job(j.k, j.left, [], None)
    requires Booted(j.k, fresh0, pids, j.left) && Schedule.JobInv(j, o, j.left)
    modifies kernel.Repr(), work
    ensures kernel.Valid()
    ensures Finished(pids, j.left, kernel.processor.timerInterval, Pages(fresh0.mgr), fresh0.mgr.HoleMgr?, e,
                allReleased, work.log, kernel.State().mm)
    ensures e == Some(NoTimerInterval) <==> kernel.processor.timerInterval == 0
  {
    hide Schedule.Rounds, Schedule.Started, Schedule.Work, Schedule.JobInv, Schedule.Leads, Inv, Runs.Remaining, Booted,
        Ended, Finished, OSKernel.State, OSKernel.MM, OSKernel.Valid;
    ghost var r, o', es;
    e, r, o', es := kernel.processor.Run(kernel, work, j, o, j.left);
    LeadsInv(j, o, r, o', j.left, es);
    allReleased := kernel.Shutdown(o');
    PlanOfRun(j, o, r, e, fresh0, pids, j.left, kernel.processor.timerInterval);
    FinishedBy(j, o, r, o', es, fresh0, pids, j.left, kernel.State().mm, e, allReleased,
        kernel.processor.timerInterval);
  }

  /** The parts of a machine that is not running yet. */
  method Assemble(cfg: Config, tlbEntries: nat, memorySize: nat, quantum: nat)
    returns (processor: Processor, driver: MmuDriver)
    requires 0 < tlbEntries
    ensures fresh(Hardware(processor, driver)) && PowerOn(processor, driver)
    ensures processor.mmu.cfg == cfg && processor.timerInterval == quantum
    ensures processor.mmu.memory.frames.Length == memorySize / PAGE_SIZE
    ensures processor.mmu.tlb.storage.Length == tlbEntries
  {
    var memory := new PhysicalMemory(memorySize / PAGE_SIZE);
    var tlb := new Buffer.TranslationBuffer(tlbEntries);
    var mmu := new Mmu(cfg, memory, tlb);
    driver := new MmuDriver();
    processor := new Processor(mmu, quantum);
  }

  /** Boots a machine, runs all traces and shuts the kernel down again. */
  method Simulate(cfg: Config, tlbEntries: nat, memorySize: nat, useHoles: bool, quantum: nat, processList: seq<nat>,
          traces: Schedule.Traces)
    returns (booted: bool, e: Option<Error>, allReleased: bool, ghost log: seq<(nat, u64)>, ghost end: Memory.State)
    requires 0 < tlbEntries
    requires Distinct(processList) && 0 !in processList && forall p :: p in processList <==> p in traces
    ensures booted <==> 0 < memorySize <= MAX_PAGES * PAGE_SIZE && |processList| <= memorySize / PAGE_SIZE
    ensures !booted ==>
              e == Some(if memorySize > MAX_PAGES * PAGE_SIZE then TooMuchMemory
                        else if memorySize == 0 then MapFailed else MemoryFull)
    ensures booted ==> Finished(processList, traces, quantum, memorySize / PAGE_SIZE, useHoles, e, allReleased, log,
                end)
    ensures booted ==> (e == Some(NoTimerInterval) <==> quantum == 0)
  {
    hide Runs.BootTables, Runs.FreshMachine, Schedule.JobInv, Booted, Finished, Sound, OSKernel.State, OSKernel.MM,
        OSKernel.Valid;
    var work := new Workload(traces);
    var processor, driver := Assemble(cfg, tlbEntries, memorySize, quantum);
    assert work !in Hardware(processor, driver);
    ghost var slots, fresh0 := processor.mmu.tlb.storage[..], NoMemory();
    var kernel: OSKernel?;
    kernel, e, fresh0 := Boot(processor, driver, memorySize, useHoles, processList);
    log, allReleased, end := [], false, fresh0;
    if 0 < memorySize <= MAX_PAGES * PAGE_SIZE {
      FreshSound(fresh0);
      Room.BootIff(fresh0, Account(map[], 0, 0), processList);
    }
    booted := e.None?;
    if booted {
      ghost var o := FirstJob(cfg, fresh0, processList, slots, traces);
      ghost var j := Schedule.Job(kernel.State(), traces, [], None);
      assert work !in kernel.Repr();
      e, allReleased := RunAndStop(kernel, work, j, o, fresh0, processList);
      log, end := work.log, kernel.State().mm;
    }
  }
}
