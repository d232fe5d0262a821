/** Between the program's loops and the functions that specify them: what one step of a loop, or the end
    of it, means for the function. */
module Refinement {
  import opened Sv48
  import opened PageTable
  import opened Managers
  import opened Memory
  import opened Kernel
  import Bitmap
  import HoleList
  import Room
  import RoundRobin
  import Runs
  import Schedule
  import Tally
  import Teardown
  import Tlb

  /* ----- walks and page faults ----- */

  /** Every table a walk reads lies in RAM. */
  ghost predicate WalkInRam(mem: PageTable.Ram, f: nat, idx: seq<Index>)
    decreases |idx|
  {
    idx != [] ==>
      f in mem && var e := mem[f][idx[0]]; (e.valid && !e.read ==> WalkInRam(mem, e.ppn, idx[1..]))
  }

  lemma {:induction false} TreeWalkInRam(mem: PageTable.Ram, roots: map<nat, nat>, role: Roles, f: nat, idx: seq<Index>)
    requires TreeOk(mem, roots, role)
    requires f in role && role[f].Inner? && |role[f].path| + |idx| == 4
    ensures WalkInRam(mem, f, idx)
    decreases |idx|
  {
    assert FrameOk(mem, roots, role, f);
    if idx == [] {
    } else {
      var e := mem[f][idx[0]];
      assert EntryOk(role, f, e, idx[0]);
      if e.valid && !e.read {
        TreeWalkInRam(mem, roots, role, e.ppn, idx[1..]);
      }
    }
  }

  /** The walk for the running process stays in RAM, and its translation changes only the buffer. */
  lemma {:induction false} TranslationReady(k: Machine, o: Account, addr: u64)
    requires Inv(k, o) && k.current != 0
    ensures Tlb.Ok(k.tlb) && WalkInRam(k.mm.mem, k.root / PAGE_SIZE, MmuPath(VPage(addr)))
    ensures var k1 := Kernel.GetTranslation(k, addr).1; k1 == k.(tlb := k1.tlb)
  {
    RunningRoot(k, o);
    RootRole(k.mm, o, k.current);
    TreeWalkInRam(k.mm.mem, k.mm.roots, o.role, k.root / PAGE_SIZE, MmuPath(VPage(addr)));
    GetTranslationKeeps(k, o, addr);
  }

  /** An access of k has come to translation t and machine k1: the first translation, or the outcome. */
  ghost predicate Reaches(k: Machine, addr: u64, t: Translation, k1: Machine) {
    && k.root != 0 && Tlb.Ok(k.tlb)
    && if t == PageFault then (t, k1) == Kernel.GetTranslation(k, addr) else (t, k1) == Access(k, addr)
  }

  lemma {:induction false} AccessBegins(k: Machine, o: Account, addr: u64)
    requires Inv(k, o) && k.current != 0
    ensures var (t, k1) := Kernel.GetTranslation(k, addr); Reaches(k, addr, t, k1)
  {
    RunningRoot(k, o);
  }

  lemma AccessEnds(k: Machine, addr: u64, t: Translation, k1: Machine)
    requires Reaches(k, addr, t, k1) && t != PageFault
    ensures (t, k1) == Access(k, addr)
  {
  }

  /** Handling the fault ends the access or lets it translate. */
  lemma {:induction false} FaultStep(k: Machine, o: Account, addr: u64, k1: Machine) returns (o': Account)
    requires Inv(k, o) && k.current != 0 && Reaches(k, addr, PageFault, k1)
    ensures Shaped(k1.mm, o.role)
    ensures var (e, k2) := HandleFault(k1, addr);
      match e
      case Some(error) => Reaches(k, addr, Trap(error), k2)
      case None =>
        && Inv(k2, o') && k2.current != 0
        && var (t, k3) := Kernel.GetTranslation(k2, addr); Reaches(k, addr, t, k3) && t != PageFault
  {
    RunningRoot(k, o);
    Transparent(k, o, addr);
    WalkIsMapped(k, o, addr);
    GetTranslationKeeps(k, o, addr);
    SoundIsShaped(k1.mm, o);
    var d: nat;
    o', d := HandleFaultKeeps(k1, o, addr);
    var (e, k2) := HandleFault(k1, addr);
    if e.None? {
      Transparent(k2, o', addr);
      WalkIsMapped(k2, o', addr);
    }
  }

  /** Memory after a fresh page has been charged to process p. */
  ghost function FaultCharged(s: Memory.State, p: nat): Memory.State
    requires Allocate(s.mgr, 1).0.Some?
  {
    var (a, m) := Allocate(s.mgr, 1);
    Charge(s.(mgr := m), p, Grant(a.value, PAGE_SIZE))
  }

  /** The fresh page is no table. */
  lemma {:induction false} FaultPrepared(s: Memory.State, role: Roles, p: nat)
    requires Shaped(s, role)
    ensures Allocate(s.mgr, 1).0.Some? ==> Shaped(FaultCharged(s, p), role)
  {
    if Allocate(s.mgr, 1).0.Some? {
      TakeFrame(s, role);
    }
  }

  lemma {:induction false} FaultUnfolds(k: Machine, addr: u64)
    ensures var (a, m) := Allocate(k.mm.mgr, 1); var k' := k.(faults := k.faults + 1);
      match a
      case None => HandleFault(k, addr) == (Some(MemoryFull), k'.(mm := k.mm.(mgr := m)))
      case Some(p) =>
        var r := Memory.SetMapping(FaultCharged(k.mm, k.current), k.current, k.current, PageBase(addr), p);
        HandleFault(k, addr) == (if r.Failed? then Some(r.error) else None, k'.(mm := r.s))
  {
  }

  /* ----- mapping ----- */

  lemma NextTableFound(s: Memory.State, cur: nat, t: nat, i: Index)
    ensures At(s.mem, t)[i].valid ==> Memory.NextTable(s, cur, t, i) == (Some(At(s.mem, t)[i].ppn), s)
    ensures !At(s.mem, t)[i].valid && NewTable(s, cur).0.None? ==> Memory.NextTable(s, cur, t, i) == NewTable(s, cur)
  {
  }

  /** The kernel made a table (k1) and linked it (k2). */
  lemma NextTableMade(k: Machine, k1: Machine, k2: Machine, t: nat, i: Index)
    requires !At(k.mm.mem, t)[i].valid
    requires NewTable(k.mm, k.current).0.Some? && k1 == k.(mm := NewTable(k.mm, k.current).1)
    requires k2 == k1.(mm := k1.mm.(mem := SetEntry(k1.mm.mem, t, i, Pointer(NewTable(k.mm, k.current).0.value))))
    ensures Memory.NextTable(k.mm, k.current, t, i).0 == Some(At(k2.mm.mem, t)[i].ppn)
    ensures k2 == k.(mm := Memory.NextTable(k.mm, k.current, t, i).1)
  {
  }

  /** The mapping of a path below table t that the loop is to reach. */
  ghost predicate MapsTo(s: Memory.State, role: Roles, cur: nat, t: nat, path: seq<Index>, j: nat, d: nat,
          goal: Outcome) {
    && Shaped(s, role) && |path| == 4 && j < 4
    && t in role && role[t].Inner? && |role[t].path| == j
    && MapFrom(s, cur, t, path[j..], d) == goal
  }

  lemma {:induction false} MapBegins(s: Memory.State, role: Roles, cur: nat, pid: nat, vAddr: u64, pAddr: nat)
    requires Shaped(s, role) && pid in s.roots
    ensures MapsTo(s, role, cur, s.roots[pid], DriverPath(vAddr), 0, pAddr / PAGE_SIZE,
                   Memory.SetMapping(s, cur, pid, vAddr, pAddr))
  {
    assert DriverPath(vAddr)[0..] == DriverPath(vAddr);
  }

  /** One level of the mapping loop. */
  lemma {:induction false} MapOneLevel(s: Memory.State, role: Roles, cur: nat, t: nat, path: seq<Index>, j: nat,
          next: nat, d: nat, goal: Outcome)
    returns (role': Roles)
    requires MapsTo(s, role, cur, t, path, j, d, goal) && next == j + 1 < 4
    ensures t in s.mem && Ok(s.mgr)
    ensures var (c, s') := Memory.NextTable(s, cur, t, path[j]);
      match c
      case None => goal == Failed(s', MemoryFull)
      case Some(t') => MapsTo(s', role', cur, t', path, next, d, goal)
  {
    hide TreeOk, CoversRam, Ok;
    InnerInRam(s.mem, s.roots, role, t);
    assert path[j..][0] == path[j] && path[j..][1..] == path[next..];
    role' := NextTableShaped(s, role, cur, t, path[j]);
  }

  lemma {:induction false} MapLeaf(s: Memory.State, role: Roles, cur: nat, t: nat, path: seq<Index>, d: nat,
          goal: Outcome)
    requires MapsTo(s, role, cur, t, path, 3, d, goal)
    ensures t in s.mem && goal == Done(s.(mem := SetEntry(s.mem, t, path[3], Leaf(d))))
  {
    InnerInRam(s.mem, s.roots, role, t);
  }

  /* ----- release ----- */

  ghost function WithMgr(s: Memory.State, m: Mgr): Memory.State {
    s.(mgr := m)
  }

  /** A frame of RAM is one page of the manager. */
  lemma FrameInRange(f: nat, n: nat)
    requires BASE_FRAME <= f < BASE_FRAME + n && n <= MAX_PAGES
    ensures PageIndex(f * PAGE_SIZE) + PagesFor(PAGE_SIZE) <= n
  {
  }

  /** The manager after the tables below entry y on of a table, and then the table, are released. */
  ghost function Released(m: Mgr, mem: PageTable.Ram, table: nat, lv: nat, y: nat): Mgr
    requires y <= 512
  {
    Teardown.ReleaseGrants(m, FrameGrants(ReleaseFrom(mem, table, lv, y)))
  }

  /** Releasing from entry y on: what the entry points to, then from entry y + 1 on. */
  lemma {:induction false} ReleaseStep(m: Mgr, mem: PageTable.Ram, table: nat, lv: nat, below: nat, y: nat, next: nat)
    requires y < 512 && next == y + 1 && (lv > 0 ==> lv == below + 1)
    ensures var e := At(mem, table)[y];
      Released(m, mem, table, lv, y) ==
      Released(if e.valid && !e.read && lv > 0 then Released(m, mem, e.ppn, below, 0) else m, mem, table, lv, next)
  {
    var e := At(mem, table)[y];
    var rest := ReleaseFrom(mem, table, lv, next);
    if e.valid && !e.read && lv > 0 {
      Teardown.ReleaseFramesAppend(m, ReleaseFrom(mem, e.ppn, below, 0), rest);
    } else {
      assert [] + rest == rest;
    }
  }

  lemma {:induction false} ReleaseLast(m: Mgr, mem: PageTable.Ram, table: nat, lv: nat)
    ensures Released(m, mem, table, lv, 512) == Teardown.ReleaseMemory(m, table * PAGE_SIZE, PAGE_SIZE)
  {
    assert FrameGrants([table])[1..] == [];
    assert Teardown.ReleaseGrants(m, FrameGrants([table])) == Teardown.ReleaseMemory(m, table * PAGE_SIZE,
        PAGE_SIZE);
  }

  lemma {:induction false} InnerInRam(mem: PageTable.Ram, roots: map<nat, nat>, role: Roles, f: nat)
    requires TreeOk(mem, roots, role) && f in role
    ensures f in mem
  {
    assert FrameOk(mem, roots, role, f);
  }

  /** What a pointer entry points to: a table one level down. */
  lemma {:induction false} ChildInner(mem: PageTable.Ram, roots: map<nat, nat>, role: Roles, f: nat, y: Index)
    requires TreeOk(mem, roots, role) && f in role && role[f].Inner?
    ensures var e := At(mem, f)[y];
      e.valid && !e.read ==>
        |role[f].path| < 3 && e.ppn in role && role[e.ppn].Inner? && |role[e.ppn].path| == |role[f].path| + 1
  {
    assert FrameOk(mem, roots, role, f) && EntryOk(role, f, mem[f][y], y);
  }

  lemma {:induction false} LedgerInRam(s: Memory.State, o: Account, p: nat) returns (fs: seq<nat>)
    requires Sound(s, o) && p in s.roots
    ensures Entries(s.ledger, p) == FrameGrants(fs) && forall f :: f in fs ==> f in s.mem
  {
    fs := Teardown.LedgerFrames(s, o, p);
    Teardown.AllInRange(s, o);
    forall f | f in fs
      ensures f in s.mem
    {
      assert f in Teardown.ToSet(fs) && InRange(s.mgr, f);
    }
  }

  /* ----- boot and end ----- */

  lemma {:induction false} FreshManager(n: nat, m: Mgr)
    requires n <= MAX_PAGES
    requires m == BitMgr(Bitmap.State(seq(n, _ => false), 0, 0)) ||
             m == HoleMgr(HoleList.State([HoleList.Seg(0, n, false)], n, 0, 0))
    ensures FreshMgr(m) && Pages(m) == n
  {
    FreshAgree(n);
    OkBits(m);
  }

  /** A machine without memory. */
  function NoMemory(): Memory.State {
    Memory.State(map[], BitMgr(Bitmap.State([], 0, 0)), map[], map[], 0)
  }

  ghost function BootError(r: Outcome): Option<Error> {
    if r.Failed? then Some(r.error) else None
  }

  lemma BootDone(s: Memory.State, pids: seq<nat>)
    ensures Runs.BootTables(s, pids[|pids|..]) == Done(s)
  {
  }

  lemma {:induction false} BootNext(s: Memory.State, pids: seq<nat>, i: nat, next: nat)
    requires i < |pids| && next == i + 1 && Ok(s.mgr)
    ensures var r := Memory.AllocatePageTable(s, 0, pids[i]);
      && Ok(r.s.mgr)
      && Runs.BootTables(s, pids[i..]) == if r.Failed? then r else Runs.BootTables(r.s, pids[next..])
  {
    assert pids[i..][1..] == pids[next..];
    OnePage();
    AllocateOne(s.mgr);
  }

  /** The live processes are pids, and ending them one by one leads to goal. */
  ghost predicate Ending(s: Memory.State, pids: seq<nat>, goal: Memory.State) {
    && Distinct(pids)
    && (forall p :: p in pids <==> p in s.roots)
    && Teardown.TerminateAll(s, pids) == goal
  }

  /** Memory once every process of machine k has been ended, the running one last. */
  ghost predicate Ended(k: Machine, s: Memory.State) {
    && Distinct(Runs.Remaining(k)) && (forall p :: p in Runs.Remaining(k) ==> p in k.mm.roots)
    && s == Teardown.TerminateAll(k.mm, Runs.Remaining(k))
  }

  lemma {:induction false} EndingBegins(k: Machine, o: Account) returns (goal: Memory.State)
    requires Inv(k, o)
    ensures Sound(k.mm, o) && Ending(k.mm, Runs.Remaining(k), goal) && Ended(k, goal)
  {
    Runs.RemainingIsLive(k, o);
    goal := Teardown.TerminateAll(k.mm, Runs.Remaining(k));
  }

  lemma {:induction false} EndingNext(s: Memory.State, pids: seq<nat>, goal: Memory.State)
    requires Ending(s, pids, goal) && pids != []
    ensures pids[0] in s.roots && Ending(Teardown.Terminate(s, pids[0]), pids[1..], goal)
  {
    hide Teardown.Terminate;
    var p := pids[0];
    assert p in pids && pids == [p] + pids[1..];
    Teardown.TerminateKind(s, p);
    forall q
      ensures q in pids[1..] <==> q in s.roots - {p}
    {
      assert q in pids <==> q in s.roots;
    }
  }

  lemma {:induction false} EndingStep(s: Memory.State, o: Account, pids: seq<nat>, i: nat, next: nat,
          goal: Memory.State)
    requires Sound(s, o) && i < |pids| && next == i + 1 && Ending(s, pids[i..], goal)
    ensures pids[i] in s.roots && Teardown.TablesOf(o.role, pids[i]) != {}
    ensures Sound(Teardown.Terminate(s, pids[i]), Teardown.Closed(o, pids[i]))
    ensures Ending(Teardown.Terminate(s, pids[i]), pids[next..], goal)
  {
    EndingNext(s, pids[i..], goal);
    assert pids[i..][0] == pids[i] && pids[i..][1..] == pids[next..];
    Teardown.TerminateKeeps(s, o, pids[i]);
  }

  /* ----- the processor ----- */

  ghost function TrapOf(t: Translation): Option<Error> {
    if t.Trap? then Some(t.error) else None
  }

  /** The next access of the running process, whether or not it succeeds. */
  lemma {:induction false} AdvanceIs(j: Schedule.Job, o: Account, whole: Schedule.Traces) returns (o': Account)
    requires Schedule.JobInv(j, o, whole) && j.k.current != 0 && Schedule.LeftOf(j) != []
    ensures Schedule.JobInv(Schedule.Advance(j), o', whole)
    ensures Schedule.Advance(j).k.current == j.k.current == j.k.cpu && Inv(j.k, o)
    ensures j.k.current in j.left && j.left[j.k.current] != []
    ensures var p := j.k.current; var (t, k') := Access(j.k, j.left[p][0]);
      Schedule.Advance(j) == Schedule.Job(k', j.left[p := j.left[p][1..]], j.log + [(p, j.left[p][0])], TrapOf(t))
  {
    RunningRoot(j.k, o);
    o' := Schedule.AdvanceKeeps(j, o, whole);
  }

  lemma RunsCurrent(j: Schedule.Job, o: Account, whole: Schedule.Traces)
    requires Schedule.JobInv(j, o, whole)
    ensures j.k.cpu == j.k.current
  {
  }

  /** Goal is what a burst of up to n accesses leads to. */
  ghost predicate BurstTo(j: Schedule.Job, n: nat, goal: Schedule.Job) {
    goal == Schedule.Burst(j, n)
  }

  lemma BurstBegins(j: Schedule.Job, n: nat)
    ensures BurstTo(j, n, Schedule.Burst(j, n))
  {
  }

  lemma BurstGoesOn(j: Schedule.Job, n: nat, fewer: nat, goal: Schedule.Job)
    requires BurstTo(j, n, goal) && n == fewer + 1 && j.error.None? && Schedule.LeftOf(j) != []
    ensures BurstTo(Schedule.Advance(j), fewer, goal)
  {
    hide Schedule.Advance;
  }

  lemma BurstEnds(j: Schedule.Job, n: nat, goal: Schedule.Job)
    requires BurstTo(j, n, goal) && (n == 0 || j.error.Some? || Schedule.LeftOf(j) == [])
    ensures j == goal
  {
  }

  /** Goal is what n rounds lead to. */
  ghost predicate RoundsTo(j: Schedule.Job, quantum: nat, n: nat, goal: Schedule.Job) {
    goal == Schedule.Rounds(j, quantum, n)
  }

  lemma RoundsBegin(j: Schedule.Job, quantum: nat, n: nat)
    ensures RoundsTo(j, quantum, n, Schedule.Rounds(j, quantum, n))
  {
  }

  lemma {:induction false} NextRound(j: Schedule.Job, o: Account, whole: Schedule.Traces, quantum: nat, n: nat,
          fewer: nat, goal: Schedule.Job)
    returns (o': Account)
    requires Schedule.JobInv(j, o, whole) && !Schedule.Stopped(j) && quantum > 0 && (n > 0 ==> n == fewer + 1)
    requires Schedule.Work(j.left, Runs.Remaining(j.k)) <= n && RoundsTo(j, quantum, n, goal)
    ensures var r := Schedule.Round(j, quantum);
      && 0 < n && RoundsTo(r, quantum, fewer, goal) && Schedule.JobInv(r, o', whole)
      && (r.error.None? ==> Schedule.Busy(r.k) && Schedule.Work(r.left, Runs.Remaining(r.k)) <= fewer)
      && (r.error.Some? ==> r == goal)
  {
    hide Inv, Schedule.Round, RoundsTo;
    var es;
    o', es := Schedule.RoundKeeps(j, o, whole, quantum);
    Schedule.WorkAppend(j.left, j.k.ready, [j.k.current]);
    RoundsGoOn(j, quantum, n, fewer, goal);
    if Schedule.Round(j, quantum).error.Some? {
      RoundsEnd(Schedule.Round(j, quantum), quantum, fewer, goal);
    }
  }

  lemma RoundsGoOn(j: Schedule.Job, quantum: nat, n: nat, fewer: nat, goal: Schedule.Job)
    requires RoundsTo(j, quantum, n, goal) && n == fewer + 1 && !Schedule.Stopped(j)
    ensures RoundsTo(Schedule.Round(j, quantum), quantum, fewer, goal)
  {
    hide Schedule.Round;
  }

  lemma RoundsEnd(j: Schedule.Job, quantum: nat, n: nat, goal: Schedule.Job)
    requires RoundsTo(j, quantum, n, goal) && Schedule.Stopped(j)
    ensures j == goal
  {
  }

  /* ----- a whole simulation ----- */

  /** What a finished simulation promises. Without an error every trace was accessed to its end; the accesses
      were those of round robin, in that order; all frames came back; when the kernel's check noticed that,
      however the simulation ended; and with the hole list, how much memory is enough. */
  ghost predicate Finished(processList: seq<nat>, traces: Schedule.Traces, quantum: nat, pages: nat, useHoles: bool,
          e: Option<Error>, allReleased: bool, log: seq<(nat, u64)>, end: Memory.State) {
    && (e.Some? ==> e.value == MemoryFull || e.value == NoTimerInterval)
    && (e.None? ==> forall p :: p in processList ==> p in traces && Schedule.TraceOf(log, p) == traces[p])
    && RoundRobin.KeepsPlan(log, RoundRobin.PlannedLog(traces, processList, quantum), e.None?)
    && Runs.AllReturned(end, |processList|)
    && (allReleased <==> Used(end.mgr) == 0)
    && (allReleased <==> useHoles || end.bytes == PAGE_SIZE * |processList|)
    && (e.None? && !useHoles ==> (allReleased <==> forall p :: p in traces ==> traces[p] == []))
    && (useHoles && |processList| + 4 * Schedule.Lengths(traces, processList) <= pages ==> e != Some(MemoryFull))
  }

  /** A machine that has booted to run traces, from fresh memory. */
  ghost predicate Booted(k: Machine, fresh0: Memory.State, pids: seq<nat>, traces: Schedule.Traces) {
    && FreshMemory(fresh0) && Distinct(pids) && 0 !in pids && (forall p :: p in pids <==> p in traces)
    && Runs.BootTables(fresh0, pids).Done? && k.tlb.slots != []
    && k == Runs.FreshMachine(k.cfg, Runs.BootTables(fresh0, pids).s, pids, k.tlb.slots)
  }

  /** A machine that has booted is ready to run. */
  lemma {:induction false} FirstJob(cfg: Config, fresh0: Memory.State, pids: seq<nat>, slots: seq<Tlb.Slot>,
          traces: Schedule.Traces)
    returns (o: Account)
    requires FreshMemory(fresh0) && Distinct(pids) && 0 !in pids && (forall p :: p in pids <==> p in traces)
    requires slots != [] && Runs.BootTables(fresh0, pids).Done?
    ensures var k := Runs.FreshMachine(cfg, Runs.BootTables(fresh0, pids).s, pids, slots);
      Booted(k, fresh0, pids, traces) && Schedule.JobInv(Schedule.Job(k, traces, [], None), o, traces)
  {
    o := Runs.Boot(cfg, fresh0, pids, slots);
    assert forall p :: p in traces ==> Schedule.TraceOf([], p) + traces[p] == traces[p];
  }

  lemma LeadsNowhere(j: Schedule.Job, o: Account, whole: Schedule.Traces)
    requires Schedule.JobInv(j, o, whole) && j.error.None?
    ensures Schedule.Leads(j, o, j, o, whole, [])
  {
    hide Inv, Schedule.TracesOk;
    assert j.log + [] == j.log;
  }

  lemma LeadsInv(j: Schedule.Job, o: Account, r: Schedule.Job, o': Account, whole: Schedule.Traces, es: seq<Runs.Event>)
    requires Schedule.Leads(j, o, r, o', whole, es)
    ensures Inv(r.k, o') && Runs.Population(r.k, o') == Runs.Population(j.k, o)
    ensures Schedule.TracesOk(r.left, r.log, whole, r.k.mm.roots)
  {
    hide Inv, Schedule.TracesOk;
  }

  lemma {:induction false} StartedReady(j: Schedule.Job, o: Account, whole: Schedule.Traces)
    requires Schedule.JobInv(j, o, whole) && j.error.None?
    ensures Schedule.JobInv(Schedule.Started(j), o, whole) && Schedule.Busy(Schedule.Started(j).k)
    ensures Schedule.Started(j).error.None?
    ensures Schedule.Work(Schedule.Started(j).left, Runs.Remaining(Schedule.Started(j).k)) ==
            Schedule.Work(j.left, Runs.Remaining(j.k))
  {
    hide Schedule.JobInv, Schedule.Started, Schedule.Work, Runs.Remaining;
    var es := Schedule.StartedKeeps(j, o, whole);
  }

  /** The run from boot reached job r, and then all its processes were ended. */
  lemma {:induction false} FinishedBy(j: Schedule.Job, o: Account, r: Schedule.Job, o': Account, es: seq<Runs.Event>,
          fresh0: Memory.State, pids: seq<nat>, traces: Schedule.Traces, end: Memory.State, e: Option<Error>,
          allReleased: bool, quantum: nat)
    requires j == Schedule.Job(j.k, traces, [], None) && Booted(j.k, fresh0, pids, traces)
    requires Schedule.Leads(j, o, r, o', traces, es) && Ended(r.k, end)
    requires e == Some(NoTimerInterval) || (e == r.error && (e.Some? ==> e == Some(MemoryFull)))
    requires RoundRobin.KeepsPlan(r.log, RoundRobin.PlannedLog(traces, pids, quantum), e.None?)
    requires e.None? ==> forall p :: p in traces ==> Schedule.TraceOf(r.log, p) == traces[p]
    requires allReleased <==> Used(end.mgr) == 0
    ensures Finished(pids, traces, quantum, Pages(fresh0.mgr), fresh0.mgr.HoleMgr?, e, allReleased, r.log, end)
  {
    hide Booted, Ended, Schedule.Leads, Schedule.TracesOk, Schedule.TraceOf, Schedule.Lengths, Runs.AllReturned,
        Runs.NoTrap, Used, RoundRobin.KeepsPlan, RoundRobin.PlannedLog;
    RunIsLogged(j, o, r, o', traces, es);
    CheckAfterRun(j.k, fresh0, pids, traces, es, end);
    BootedSound(j.k, fresh0, pids, traces);
    if e.None? {
      Schedule.LogEmptyIff(r.log, traces);
    }
    if fresh0.mgr.HoleMgr? && |pids| + 4 * Schedule.Lengths(traces, pids) <= Pages(fresh0.mgr) {
      Schedule.LogFits(r.left, r.log, traces, r.k.mm.roots, pids);
      EnoughFromBoot(j.k, fresh0, pids, traces, es);
    }
  }

  /** The log of a run from boot. */
  lemma {:induction false} PlanOfRun(j: Schedule.Job, o: Account, r: Schedule.Job, e: Option<Error>,
          fresh0: Memory.State, pids: seq<nat>, traces: Schedule.Traces, quantum: nat)
    requires j == Schedule.Job(j.k, traces, [], None) && Booted(j.k, fresh0, pids, traces)
    requires Schedule.JobInv(j, o, traces) && (quantum == 0 ==> e == Some(NoTimerInterval) && r == j)
    requires quantum > 0 ==>
               && r == Schedule.Rounds(Schedule.Started(j), quantum, Schedule.Work(j.left, Runs.Remaining(j.k)))
               && e == r.error
    ensures RoundRobin.KeepsPlan(r.log, RoundRobin.PlannedLog(traces, pids, quantum), e.None?)
  {
    hide Schedule.JobInv, Schedule.Rounds, Schedule.Started, Schedule.Work, RoundRobin.PlannedLog, FreshMemory,
        Runs.BootTables;
    if quantum > 0 {
      RoundRobin.PlanKept(j, o, traces, quantum);
    }
  }

  lemma BootedSound(k: Machine, fresh0: Memory.State, pids: seq<nat>, traces: Schedule.Traces)
    requires Booted(k, fresh0, pids, traces)
    ensures Distinct(pids) && forall p :: p in pids <==> p in traces
  {
  }

  /** What was logged are the accesses of the run; they are all answered exactly when there is no error. */
  lemma {:induction false} RunIsLogged(j: Schedule.Job, o: Account, r: Schedule.Job, o': Account,
          whole: Schedule.Traces, es: seq<Runs.Event>)
    requires Schedule.Leads(j, o, r, o', whole, es) && j.log == [] && j.error.None?
    ensures r.k == Runs.Run(j.k, es) && r.log == Tally.Accesses(j.k, es)
    ensures |Runs.Answers(j.k, es)| == |r.log| && (r.error.None? <==> Runs.NoTrap(Runs.Answers(j.k, es)))
    ensures Schedule.TracesOk(r.left, r.log, whole, r.k.mm.roots)
    ensures forall i :: 0 <= i < |r.log| ==> r.log[i].0 in whole
  {
    hide Inv;
    Tally.AccessesAnswered(j.k, es);
    assert [] + Tally.Accesses(j.k, es) == Tally.Accesses(j.k, es);
  }

  /** The end of a run from boot, and what the final check then says. */
  lemma {:induction false} CheckAfterRun(k: Machine, fresh0: Memory.State, pids: seq<nat>, traces: Schedule.Traces,
          es: seq<Runs.Event>, end: Memory.State)
    requires Booted(k, fresh0, pids, traces) && Ended(Runs.Run(k, es), end)
    ensures Runs.AllReturned(end, |pids|)
    ensures Used(end.mgr) == 0 <==> fresh0.mgr.HoleMgr? || end.bytes == PAGE_SIZE * |pids|
    ensures Runs.NoTrap(Runs.Answers(k, es)) && !fresh0.mgr.HoleMgr? ==>
              (Used(end.mgr) == 0 <==> Runs.Answers(k, es) == [])
  {
    var slots := k.tlb.slots;
    var o := Runs.Boot(k.cfg, fresh0, pids, slots);
    Room.BootSize(fresh0, pids);
    hide Inv, Runs.AllReturned, Runs.NoTrap, FreshMemory;
    Runs.ConservationOverRuns(k.cfg, fresh0, pids, slots, es);
    Tally.ReleasedCheckIff(k.cfg, fresh0, pids, slots, es);
    Tally.KindOverRuns(k, o, es);
    var o' := Runs.RunKeeps(k, o, es);
    Tally.EndBytes(Runs.Run(k, es), o');
    Tally.BytesFromBoot(k.cfg, fresh0, pids, slots, es);
  }

  /** With four frames per access besides the roots, the hole list serves the whole run. */
  lemma {:induction false} EnoughFromBoot(k: Machine, fresh0: Memory.State, pids: seq<nat>, traces: Schedule.Traces,
          es: seq<Runs.Event>)
    requires Booted(k, fresh0, pids, traces) && fresh0.mgr.HoleMgr?
    requires |pids| + 4 * |Tally.Accesses(k, es)| <= Pages(fresh0.mgr)
    ensures Runs.NoTrap(Runs.Answers(k, es))
  {
    var o := Runs.Boot(k.cfg, fresh0, pids, k.tlb.slots);
    Room.BootSize(fresh0, pids);
    Runs.RemainingIsLive(k, o);
    assert Runs.Remaining(k) == pids;
    Tally.RootsFit(k, o);
    Tally.EnoughMemory(k, o, es);
  }
}
