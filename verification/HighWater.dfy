/** The high-water mark the kernel reports: what it is after every run, and when it is the largest number of
    frames ever in use. */
module HighWater {
  import opened Sv48
  import opened PageTable
  import opened Managers
  import opened Memory
  import opened Kernel
  import opened Runs
  import opened Tally
  import opened Refusals
  import Bitmap
  import Room
  import Teardown
  import Tlb

  /* ----- one manager ----- */

  /** Some pages were handed out, and none given back, on the way from m to m'. */
  ghost predicate Climbs(m: Mgr, m': Mgr) {
    && Pages(m') == Pages(m) <= MAX_PAGES
    && (m' != m ==>
          && Used(m') <= Pages(m) && Peak(m') == Bitmap.Max(Peak(m), Used(m'))
          && (Used(m) <= Pages(m) ==> Used(m) <= Used(m')))
  }

  lemma {:induction false} AllocateClimbs(m: Mgr)
    requires Ok(m)
    ensures Ok(Allocate(m, 1).1) && Climbs(m, Allocate(m, 1).1)
  {
    AllocateOne(m);
  }

  lemma ClimbsOn(m: Mgr, m1: Mgr, m2: Mgr)
    requires Climbs(m, m1) && Climbs(m1, m2)
    ensures Climbs(m, m2)
  {
  }

  lemma {:induction false} NextTableClimbs(s: Memory.State, cur: nat, t: nat, i: Index)
    requires Ok(s.mgr)
    ensures var s' := Memory.NextTable(s, cur, t, i).1; Ok(s'.mgr) && Climbs(s.mgr, s'.mgr)
  {
    hide Allocate, Ok;
    OnePage();
    AllocateClimbs(s.mgr);
  }

  lemma {:induction false} MapClimbs(s: Memory.State, cur: nat, t: nat, idx: seq<Index>, d: nat)
    requires Ok(s.mgr) && idx != []
    ensures Climbs(s.mgr, MapFrom(s, cur, t, idx, d).s.mgr)
    decreases |idx|
  {
    hide Climbs, Memory.NextTable, Ok;
    NextTableClimbs(s, cur, t, idx[0]);
    if |idx| == 1 {
      ClimbsNowhere(s.mgr);
    } else {
      var (c, s1) := Memory.NextTable(s, cur, t, idx[0]);
      if c.Some? {
        MapClimbs(s1, cur, c.value, idx[1..], d);
        ClimbsOn(s.mgr, s1.mgr, MapFrom(s1, cur, c.value, idx[1..], d).s.mgr);
      }
    }
  }

  lemma ClimbsNowhere(m: Mgr)
    requires Ok(m)
    ensures Climbs(m, m)
  {
  }

  lemma {:induction false} FaultClimbs(s: Memory.State, p: nat, addr: u64)
    requires Ok(s.mgr)
    ensures Climbs(s.mgr, Fault(s, p, addr).s.mgr)
  {
    hide Climbs, Allocate, Ok, MapFrom;
    AllocateClimbs(s.mgr);
    var (a, m) := Allocate(s.mgr, 1);
    if a.Some? && p in s.roots {
      var s1 := Charge(s.(mgr := m), p, Grant(a.value, PAGE_SIZE));
      MapClimbs(s1, p, s.roots[p], DriverPath(PageBase(addr)), a.value / PAGE_SIZE);
      ClimbsOn(s.mgr, m, MapFrom(s1, p, s.roots[p], DriverPath(PageBase(addr)), a.value / PAGE_SIZE).s.mgr);
    }
  }

  /** Giving back leaves the high-water mark. */
  lemma {:induction false} ReleasesLeavePeak(m: Mgr, gs: seq<Grant>)
    ensures Peak(Teardown.ReleaseGrants(m, gs)) == Peak(m)
    decreases |gs|
  {
    if gs == [] {
    } else {
      ReleasesLeavePeak(Teardown.ReleaseMemory(m, gs[0].addr, gs[0].size), gs[1..]);
    }
  }

  lemma {:induction false} TerminateLeavesPeak(s: Memory.State, p: nat)
    requires p in s.roots
    ensures Peak(Teardown.Terminate(s, p).mgr) == Peak(s.mgr)
  {
    hide Teardown.ReleaseGrants;
    ReleasesLeavePeak(s.mgr, FrameGrants(ReleaseFrom(s.mem, s.roots[p], 3, 0)));
    ReleasesLeavePeak(Teardown.ReleasePageTable(s, p).mgr, Entries(s.ledger, p));
  }

  /* ----- one event ----- */

  /** What the counter shows: the frames in use, less, with the bitmap, the pages released twice. */
  ghost function Shows(bitmap: bool, live: nat, twice: nat): int {
    if bitmap then live - twice else live
  }

  ghost function ShownBy(k: Machine, o: Account): int {
    Shows(k.mm.mgr.BitMgr?, |o.role|, o.twice)
  }

  function Higher(a: int, b: int): int { if a < b then b else a }

  lemma {:induction false} ShownWhenClimbed(s: Memory.State, o: Account, s': Memory.State, o': Account)
    requires Sound(s, o) && Sound(s', o') && Climbs(s.mgr, s'.mgr) && s'.mgr.BitMgr? == s.mgr.BitMgr?
    requires o'.twice == o.twice < TWO_64 - MAX_PAGES
    requires Shows(s.mgr.BitMgr?, |o.role|, o.twice) <= Peak(s.mgr)
    ensures Peak(s'.mgr) == Higher(Peak(s.mgr), Shows(s.mgr.BitMgr?, |o'.role|, o.twice))
  {
    Teardown.RolesFit(s', o');
    if s'.mgr == s.mgr {
      InUseAre(s, o);
      InUseAre(s', o');
    } else {
      Unwrapped(s'.mgr.BitMgr?, |o'.role|, o'.twice);
    }
  }

  lemma Unwrapped(bitmap: bool, live: nat, twice: nat)
    requires live <= MAX_PAGES && twice < TWO_64 - MAX_PAGES && CountOf(bitmap, live, twice) <= MAX_PAGES
    ensures CountOf(bitmap, live, twice) == Shows(bitmap, live, twice)
  {
  }

  lemma {:induction false} TouchPeak(k: Machine, o: Account, addr: u64) returns (o': Account)
    requires Inv(k, o) && k.current != 0 && o.twice < TWO_64 - MAX_PAGES && ShownBy(k, o) <= Peak(k.mm.mgr)
    ensures var (t, k') := Access(k, addr);
      && Inv(k', o') && o'.twice == o.twice && o'.gone == o.gone && Room.SameSize(k.mm.mgr, k'.mm.mgr)
      && AccessResult(k, addr, t, k') && Extends(o.role, o'.role)
      && (t.Translated? ==> NewFor(o.role, o'.role, k.current))
      && Peak(k'.mm.mgr) == Higher(Peak(k.mm.mgr), ShownBy(k', o'))
  {
    o' := AccessKeeps(k, o, addr);
    AccessIsFault(k, o, addr);
    FaultClimbs(k.mm, k.current, addr);
    Room.FaultSize(k.mm, k.current, addr);
    ClimbsNowhere(k.mm.mgr);
    ShownWhenClimbed(k.mm, o, Access(k, addr).1.mm, o');
  }

  lemma {:induction false} InterruptPeak(k: Machine, o: Account, i: Interrupt)
    requires Inv(k, o) && (i.SyscallExit? ==> k.current != 0) && ShownBy(k, o) <= Peak(k.mm.mgr)
    ensures k.current in k.mm.roots || k.current == 0
    ensures var k', o' := HandleInterrupt(k, i), InterruptAccount(k, o, i);
      && Inv(k', o') && k'.mm.mgr.BitMgr? == k.mm.mgr.BitMgr?
      && Peak(k'.mm.mgr) == Peak(k.mm.mgr) && ShownBy(k', o') <= ShownBy(k, o)
  {
    InterruptKeeps(k, o, i);
    if i.SyscallExit? {
      TerminateLeavesPeak(k.mm, k.current);
      Teardown.TerminateKeeps(k.mm, o, k.current);
      Teardown.TerminateKind(k.mm, k.current);
      Teardown.SubsetCard(Teardown.Without(o.role, k.current).Keys, o.role.Keys);
    }
    hide Inv, HandleInterrupt, Teardown.Terminate;
  }

  lemma {:induction false} StepPeak(k: Machine, o: Account, e: Event) returns (o': Account)
    requires Inv(k, o) && FewReleases(k, o) && ShownBy(k, o) <= Peak(k.mm.mgr)
    ensures var k' := Step(k, e);
      && Inv(k', o') && FewReleases(k', o') && Population(k', o') == Population(k, o)
      && k'.mm.mgr.BitMgr? == k.mm.mgr.BitMgr? && Peak(k'.mm.mgr) == Higher(Peak(k.mm.mgr), ShownBy(k', o'))
  {
    hide HandleInterrupt, Access, Inv, InterruptAccount, ShownBy;
    o' := o;
    if Enabled(k, e) {
      match e {
        case Touch(addr) =>
          EnabledCurrent(k, o, e);
          o' := TouchPeak(k, o, addr);
          SamePopulation(k, o, o', addr);
        case Tick =>
          InterruptPeak(k, o, Timer);
          InterruptFits(k, o, Timer);
          InterruptPopulation(k, o, Timer);
          o' := InterruptAccount(k, o, Timer);
        case Leave =>
          EnabledCurrent(k, o, e);
          InterruptPeak(k, o, SyscallExit);
          InterruptFits(k, o, SyscallExit);
          InterruptPopulation(k, o, SyscallExit);
          o' := InterruptAccount(k, o, SyscallExit);
      }
    }
  }

  /* ----- whole runs ----- */

  /** Pages released twice up to a state that n processes have come to: the tables ever made, less the live
      ones and the roots of the processes that have ended. */
  ghost function Lost(s: Memory.State, n: nat): int {
    s.bytes / PAGE_SIZE - |TableFrames(s)| - (n - |s.roots|)
  }

  /** What the counter shows in a state. */
  ghost function Shown(s: Memory.State, n: nat): int {
    |InUse(s.mgr)| - if s.mgr.BitMgr? then Lost(s, n) else 0
  }

  /** The most it shows in any state of a run. */
  ghost function MostShown(k: Machine, es: seq<Event>, n: nat): int
    decreases |es|
  {
    if es == [] then Shown(k.mm, n) else Higher(Shown(k.mm, n), MostShown(Step(k, es[0]), es[1..], n))
  }

  /** The most frames in use in any state of a run. */
  ghost function MostInUse(k: Machine, es: seq<Event>): nat
    decreases |es|
  {
    if es == [] then |InUse(k.mm.mgr)| else Higher(|InUse(k.mm.mgr)|, MostInUse(Step(k, es[0]), es[1..]))
  }

  lemma {:induction false} ShownIs(k: Machine, o: Account)
    requires Inv(k, o)
    ensures Lost(k.mm, Population(k, o)) == o.twice && Shown(k.mm, Population(k, o)) == ShownBy(k, o)
  {
    InUseAre(k.mm, o);
    TableFramesAre(k.mm, o);
    hide InUse, TableFrames;
  }

  lemma {:induction false} PeakOverRuns(k: Machine, o: Account, es: seq<Event>)
    requires Inv(k, o) && FewReleases(k, o) && ShownBy(k, o) <= Peak(k.mm.mgr)
    ensures Peak(Run(k, es).mm.mgr) == Higher(Peak(k.mm.mgr), MostShown(k, es, Population(k, o)))
    decreases |es|
  {
    hide Inv, FewReleases, Shown, ShownBy, Population, Step;
    ShownIs(k, o);
    if es == [] {
    } else {
      var o1 := StepPeak(k, o, es[0]);
      PeakOverRuns(Step(k, es[0]), o1, es[1..]);
      ShownFirst(Step(k, es[0]), o1, es[1..]);
    }
  }

  lemma {:induction false} ShownFirst(k: Machine, o: Account, es: seq<Event>)
    requires Inv(k, o)
    ensures ShownBy(k, o) <= MostShown(k, es, Population(k, o))
  {
    hide Inv, ShownBy, Population;
    ShownIs(k, o);
  }

  /* ----- from boot on ----- */

  lemma {:induction false} BootClimbs(s: Memory.State, pids: seq<nat>)
    requires Ok(s.mgr)
    ensures Climbs(s.mgr, BootTables(s, pids).s.mgr)
    decreases |pids|
  {
    hide Climbs, Allocate, Ok;
    ClimbsNowhere(s.mgr);
    if pids == [] {
    } else {
      OnePage();
      AllocateClimbs(s.mgr);
      var r := AllocatePageTable(s, 0, pids[0]);
      if r.Done? {
        BootClimbs(r.s, pids[1..]);
        ClimbsOn(s.mgr, r.s.mgr, BootTables(r.s, pids[1..]).s.mgr);
      }
    }
  }

  /** At boot the high-water mark is the number of roots. */
  lemma {:induction false} BootPeak(cfg: Config, s: Memory.State, pids: seq<nat>, slots: seq<Tlb.Slot>)
    returns (o: Account)
    requires FreshMemory(s) && Distinct(pids) && 0 !in pids && slots != [] && BootTables(s, pids).Done?
    ensures var k := FreshMachine(cfg, BootTables(s, pids).s, pids, slots);
      && Inv(k, o) && FewReleases(k, o) && Population(k, o) == |pids|
      && OnlyRoots(o.role) && |o.role| == |pids| && o.twice == 0 && o.gone == 0
      && k.mm.mgr.BitMgr? == s.mgr.BitMgr? && Pages(k.mm.mgr) == Pages(s.mgr)
      && Peak(k.mm.mgr) == ShownBy(k, o) == |pids|
  {
    o := Boot(cfg, s, pids, slots);
    var k := FreshMachine(cfg, BootTables(s, pids).s, pids, slots);
    RemainingIsLive(k, o);
    assert Remaining(k) == pids;
    RootsFit(k, o);
    FreshSound(s);
    BootClimbs(s, pids);
    Room.BootSize(s, pids);
    ShownWhenClimbed(s, Account(map[], 0, 0), k.mm, o);
  }

  /** No state of a run shows more than the most. */
  lemma {:induction false} AtMost(k: Machine, es: seq<Event>, n: nat, i: nat)
    requires i <= |es|
    ensures Shown(Run(k, es[..i]).mm, n) <= MostShown(k, es, n)
    ensures |InUse(Run(k, es[..i]).mm.mgr)| <= MostInUse(k, es)
    decreases |es|
  {
    hide Step, Shown, InUse;
    if i == 0 {
      assert es[..0] == [];
    } else {
      assert es[..i][0] == es[0] && es[..i][1..] == es[1..][..i - 1];
      AtMost(Step(k, es[0]), es[1..], n, i - 1);
    }
  }

  /** Some state does show that much. */
  lemma {:induction false} MostIsReached(k: Machine, es: seq<Event>, n: nat) returns (i: nat, j: nat)
    ensures i <= |es| && Shown(Run(k, es[..i]).mm, n) == MostShown(k, es, n)
    ensures j <= |es| && |InUse(Run(k, es[..j]).mm.mgr)| == MostInUse(k, es)
    decreases |es|
  {
    hide Step, Shown, InUse;
    i, j := 0, 0;
    assert es[..0] == [];
    if es == [] {
    } else {
      var k1 := Step(k, es[0]);
      var i1, j1 := MostIsReached(k1, es[1..], n);
      var i2, j2 := i1 + 1, j1 + 1;
      assert es[..i2][0] == es[0] && es[..i2][1..] == es[1..][..i1];
      assert es[..j2][0] == es[0] && es[..j2][1..] == es[1..][..j1];
      assert Run(k, es[..i2]) == Run(k1, es[1..][..i1]) && Run(k, es[..j2]) == Run(k1, es[1..][..j1]);
      i := if MostShown(k, es, n) == Shown(k.mm, n) then 0 else i2;
      j := if MostInUse(k, es) == |InUse(k.mm.mgr)| then 0 else j2;
    }
  }

  /** After events i of a run: the most frames are in use, and none was released twice before. */
  ghost predicate FullBeforeLoss(k: Machine, es: seq<Event>, n: nat, i: nat)
    requires i <= |es|
  {
    |InUse(Run(k, es[..i]).mm.mgr)| == MostInUse(k, es) && Lost(Run(k, es[..i]).mm, n) == 0
  }

  lemma {:induction false} ShownInRun(k: Machine, o: Account, es: seq<Event>)
    requires Inv(k, o)
    ensures var s := Run(k, es).mm; var n := Population(k, o);
      && 0 <= Lost(s, n) && Shown(s, n) == |InUse(s.mgr)| - if k.mm.mgr.BitMgr? then Lost(s, n) else 0
  {
    hide Inv, Lost, Population, InUse;
    var o' := RunKeeps(k, o, es);
    ShownIs(Run(k, es), o');
    KindOverRuns(k, o, es);
  }

  /** The reported high-water mark after every run from boot. With the hole list it is the largest number of
      frames ever in use. With the bitmap it is so exactly when that many were in use before any process
      with a table besides its root had ended; otherwise it is less. */
  lemma {:induction false} PeakFromBoot(cfg: Config, s: Memory.State, pids: seq<nat>, slots: seq<Tlb.Slot>,
          es: seq<Event>)
    requires FreshMemory(s) && Distinct(pids) && 0 !in pids && slots != [] && BootTables(s, pids).Done?
    ensures var k0 := FreshMachine(cfg, BootTables(s, pids).s, pids, slots); var peak := Peak(Run(k0, es).mm.mgr);
      && peak == MostShown(k0, es, |pids|) <= MostInUse(k0, es)
      && (peak == MostInUse(k0, es) <==>
            s.mgr.HoleMgr? || exists i: nat :: i <= |es| && FullBeforeLoss(k0, es, |pids|, i))
  {
    var k0, n := FreshMachine(cfg, BootTables(s, pids).s, pids, slots), |pids|;
    var o := BootPeak(cfg, s, pids, slots);
    hide Inv, FreshMemory, BootTables, Lost, InUse, Run, Population, FewReleases, OnlyRoots;
    PeakOverRuns(k0, o, es);
    ShownFirst(k0, o, es);
    var i, j := MostIsReached(k0, es, n);
    ShownInRun(k0, o, es[..i]);
    ShownInRun(k0, o, es[..j]);
    AtMost(k0, es, n, i);
    AtMost(k0, es, n, j);
    if x: nat :| x <= |es| && FullBeforeLoss(k0, es, n, x) {
      ShownInRun(k0, o, es[..x]);
      AtMost(k0, es, n, x);
    }
    if !s.mgr.HoleMgr? && MostShown(k0, es, n) == MostInUse(k0, es) {
      assert FullBeforeLoss(k0, es, n, i);
    }
  }

  lemma {:induction false} EndingLeavesPeak(s: Memory.State, pids: seq<nat>)
    requires Distinct(pids) && forall p :: p in pids ==> p in s.roots
    ensures Peak(Teardown.TerminateAll(s, pids).mgr) == Peak(s.mgr)
    decreases |pids|
  {
    hide Teardown.Terminate;
    if pids == [] {
    } else {
      var p, rest := pids[0], pids[1..];
      assert pids == [p] + rest && p in pids;
      TerminateLeavesPeak(s, p);
      Teardown.TerminateKind(s, p);
      assert forall q :: q in rest ==> q in pids && q != p;
      EndingLeavesPeak(Teardown.Terminate(s, p), rest);
    }
  }

  /** The mark is printed after the processes that remain were ended; that does not change it. */
  lemma {:induction false} EndPeak(k: Machine, o: Account)
    requires Inv(k, o)
    ensures Distinct(Remaining(k)) && forall p :: p in Remaining(k) ==> p in k.mm.roots
    ensures Peak(Teardown.TerminateAll(k.mm, Remaining(k)).mgr) == Peak(k.mm.mgr)
  {
    RemainingIsLive(k, o);
    EndingLeavesPeak(k.mm, Remaining(k));
  }

  /* ----- a run that goes above the mark ----- */

  lemma {:induction false} TableBelow(mem: Ram, roots: map<nat, nat>, role: Roles, t: nat, v: seq<Index>, w: seq<Index>)
    requires TreeOk(mem, roots, role) && t in role && role[t].Inner? && |role[t].path| + |v| == 4
    requires v != [] && |w| == |v| && v[..|v| - 1] == w[..|v| - 1] && Walk(mem, t, v).Some?
    ensures Room.Missing(mem, t, w) == 0
    decreases |v|
  {
    assert FrameOk(mem, roots, role, t) && EntryOk(role, t, mem[t][v[0]], v[0]);
    if |v| == 1 {
    } else {
      assert v[..|v| - 1][0] == v[0] && w[..|v| - 1][0] == w[0];
      assert v[1..][..|v| - 2] == v[..|v| - 1][1..] && w[1..][..|v| - 2] == w[..|v| - 1][1..];
      TableBelow(mem, roots, role, mem[t][v[0]].ppn, v[1..], w[1..]);
    }
  }

  /** Next to a mapped page, in the same leaf table, no table is missing. */
  lemma {:induction false} NoneMissing(s: Memory.State, o: Account, p: nat, v: seq<Index>, w: seq<Index>)
    requires Sound(s, o) && p in s.roots && |v| == |w| == 4 && v[..3] == w[..3] && Mapped(s, p, v).Some?
    ensures Room.Missing(s.mem, s.roots[p], w) == 0
  {
    RootRole(s, o, p);
    TableBelow(s.mem, s.roots, o.role, s.roots[p], v, w);
  }

  /** The frame a new mapping points to was no frame in use. */
  lemma {:induction false} NewPage(s: Memory.State, o: Account, s': Memory.State, o': Account, p: nat, path: seq<Index>)
    requires Sound(s, o) && Sound(s', o') && Extends(o.role, o'.role) && |path| == 4
    requires Mapped(s, p, path) == None && Mapped(s', p, path).Some?
    ensures var d := Mapped(s', p, path).value; d in o'.role && o'.role[d].Page? && d !in o.role
  {
    var d := Mapped(s', p, path).value;
    FrameAtRole(s', o', p, path);
    RootRole(s', o', p);
    WalkRole(s'.mem, s'.roots, o'.role, s'.roots[p], path);
    if d in o.role {
      RoleFrameAt(s, o, d);
    }
  }

  /** An access to an unmapped page that is answered takes exactly the frames it wants. */
  lemma {:induction false} TakesWanted(k: Machine, o: Account, addr: u64) returns (o': Account)
    requires Inv(k, o) && k.current != 0 && o.twice < TWO_64 - MAX_PAGES && ShownBy(k, o) <= Peak(k.mm.mgr)
    requires Standing(k, addr).None?
    requires k.current in k.mm.roots && Fits(k, addr) && Room.CounterAdmits(k.mm.mgr, |o.role|, o.twice)
    ensures var (t, k') := Access(k, addr);
      && t.Translated? && Inv(k', o') && o'.twice == o.twice && o'.gone == o.gone && Room.SameSize(k.mm.mgr, k'.mm.mgr)
      && AccessResult(k, addr, t, k') && Extends(o.role, o'.role) && |o'.role| == |o.role| + Wanted(k, addr)
      && NewFor(o.role, o'.role, k.current)
      && k'.mm.bytes == k.mm.bytes + PAGE_SIZE * (Wanted(k, addr) - 1)
      && Peak(k'.mm.mgr) == Higher(Peak(k.mm.mgr), ShownBy(k', o'))
  {
    o' := TouchPeak(k, o, addr);
    TouchRefusedIff(k, o, addr);
    AccessIsFault(k, o, addr);
    Room.FaultIff(k.mm, o, k.current, addr);
    NewPage(k.mm, o, Access(k, addr).1.mm, o', k.current, MmuPath(VPage(addr)));
    NewTables(o.role, o'.role);
    var made, added := Tables(o'.role) - Tables(o.role), o'.role.Keys - o.role.Keys;
    assert Mapped(Access(k, addr).1.mm, k.current, MmuPath(VPage(addr))).value in added - made;
    Teardown.DifferenceCard(Tables(o.role), Tables(o'.role));
    Teardown.DifferenceCard(o.role.Keys, o'.role.Keys);
    Teardown.DifferenceCard(made, added);
    assert |o.role| == |o.role.Keys| && |o'.role| == |o'.role.Keys|;
    hide Access, Inv, Fault, Standing;
  }

  /** A moment of the run: who runs, who waits, frames in use, pages released twice, the reported mark. */
  ghost predicate Stage(k: Machine, o: Account, current: nat, ready: seq<nat>, live: nat, twice: nat, mark: int) {
    && Inv(k, o) && k.current == current && k.ready == ready && |o.role| == live && o.twice == twice
    && k.mm.mgr.BitMgr? && 8 <= Pages(k.mm.mgr) && Peak(k.mm.mgr) == mark
  }

  /** The first of three processes is dispatched. */
  lemma {:induction false} StageTick(k: Machine, o: Account, p: nat, ready: seq<nat>)
    requires Stage(k, o, 0, [p] + ready, 3, 0, 3) && p != 0
    ensures Stage(Step(k, Tick), o, p, ready, 3, 0, 3) && Step(k, Tick).mm == k.mm && Answer(k, Tick) == []
  {
    hide Sound, TlbCoherent;
    InterruptKeeps(k, o, Timer);
    assert ([p] + ready)[1..] == ready;
  }

  /** The running process touches an unmapped page, and the frames can be had. */
  lemma {:induction false} StageTouch(k: Machine, o: Account, p: nat, ready: seq<nat>, live: nat, twice: nat, mark: int,
          a: u64, wanted: nat)
    returns (o': Account)
    requires Stage(k, o, p, ready, live, twice, mark) && p != 0 && twice <= 3 && twice <= live + 1
    requires live - twice <= mark && p in k.mm.roots && Standing(k, a).None?
    requires Wanted(k, a) == wanted && live + wanted <= 8
    ensures var k' := Step(k, Touch(a)); var path := MmuPath(VPage(a));
      && Stage(k', o', p, ready, live + wanted, twice, Higher(mark, live + wanted - twice))
      && |Answer(k, Touch(a))| == 1 && NoTrap(Answer(k, Touch(a)))
      && o'.gone == o.gone && Extends(o.role, o'.role) && NewFor(o.role, o'.role, p)
      && k'.mm.bytes == k.mm.bytes + PAGE_SIZE * (wanted - 1)
      && Mapped(k'.mm, p, path).Some? && MapUpdated(k.mm, k'.mm, p, path, Mapped(k'.mm, p, path).value)
  {
    InUseAre(k.mm, o);
    o' := TakesWanted(k, o, a);
    hide Access, Inv, InUse, Wanted;
  }

  lemma RestOnlyRoots(role0: Roles, role: Roles, p: nat)
    requires OnlyRoots(role0) && Extends(role0, role) && NewFor(role0, role, p)
    ensures OnlyRoots(Teardown.Without(role, p))
  {
  }

  /** When the frames of the other processes are all roots, there is one for each. */
  lemma {:induction false} OneRootEach(mem: Ram, roots: map<nat, nat>, role: Roles, p: nat)
    requires TreeOk(mem, roots, role) && p in roots && OnlyRoots(Teardown.Without(role, p))
    ensures |Teardown.Without(role, p)| == |roots| - 1
  {
    var rest, others := Teardown.Without(role, p), roots.Keys - {p};
    var frames := set q | q in others :: roots[q];
    forall f
      ensures f in rest.Keys <==> f in frames
    {
      if f in rest {
        assert IsRoot(rest[f]) && FrameOk(mem, roots, role, f);
        assert role[f].pid in others && roots[role[f].pid] == f;
      }
    }
    RootsCard(others, roots, role);
    assert rest.Keys == frames && |rest| == |rest.Keys| && |roots| == |roots.Keys|;
    hide TreeOk, Teardown.Without, OnlyRoots;
  }

  lemma {:induction false} ThreeLive(k: Machine, o: Account, p: nat, q: nat, r: nat)
    requires Stage(k, o, p, [q, r], 7, 0, 7) && p != 0
    ensures p in k.mm.roots && |k.mm.roots| == 3 && TreeOk(k.mm.mem, k.mm.roots, o.role)
    ensures |Tables(o.role)| + o.gone == k.mm.bytes / PAGE_SIZE
  {
    RunningRoot(k, o);
    RemainingIsLive(k, o);
    assert Remaining(k) == [q, r, p];
  }

  /** Where there are only roots, nothing is mapped and a page takes four frames. */
  lemma {:induction false} WantsFour(k: Machine, o: Account, a: u64)
    requires Inv(k, o) && k.current != 0 && OnlyRoots(o.role)
    ensures k.current in k.mm.roots && Standing(k, a).None? && Wanted(k, a) == 4
  {
    RunningRoot(k, o);
    Room.NothingMapped(k.mm, o, k.current, MmuPath(VPage(a)));
  }

  lemma StageInv(k: Machine, o: Account, current: nat, ready: seq<nat>, live: nat, twice: nat, mark: int)
    requires Stage(k, o, current, ready, live, twice, mark)
    ensures Inv(k, o) && k.current == current
  {
  }

  /** The first process touches a page. */
  lemma {:induction false} StageFirst(k: Machine, o: Account, p: nat, q: nat, r: nat, a: u64) returns (o': Account)
    requires Stage(k, o, 0, [p, q, r], 3, 0, 3) && p != 0 && OnlyRoots(o.role) && k.mm.bytes == 3 * PAGE_SIZE
    ensures var k1 := Step(k, Tick); var k2 := Step(k1, Touch(a));
      && Stage(k2, o', p, [q, r], 7, 0, 7) && Answer(k, Tick) == [] && NoTrap(Answer(k1, Touch(a)))
      && k2.mm.bytes == 6 * PAGE_SIZE && o'.gone == o.gone && Extends(o.role, o'.role) && NewFor(o.role, o'.role, p)
  {
    hide Step, Answer, Stage, Inv, OnlyRoots, Extends, NewFor, NoTrap, Standing, Wanted, Mapped, MapUpdated, Enabled,
        MmuPath, VPage;
    var k1 := Step(k, Tick);
    assert [p] + [q, r] == [p, q, r];
    StageTick(k, o, p, [q, r]);
    StageInv(k1, o, p, [q, r], 3, 0, 3);
    WantsFour(k1, o, a);
    o' := StageTouch(k1, o, p, [q, r], 3, 0, 3, a, 4);
  }

  /** It ends, and its three tables are released twice. */
  lemma {:induction false} StageLeave(k: Machine, role0: Roles, o: Account, p: nat, q: nat, r: nat)
    returns (o': Account)
    requires Stage(k, o, p, [q, r], 7, 0, 7) && p != 0 && o.gone == 0 && k.mm.bytes == 6 * PAGE_SIZE
    requires OnlyRoots(role0) && Extends(role0, o.role) && NewFor(role0, o.role, p)
    ensures Stage(Step(k, Leave), o', q, [r], 2, 3, 7) && OnlyRoots(o'.role) && Answer(k, Leave) == []
  {
    ThreeLive(k, o, p, q, r);
    RestOnlyRoots(role0, o.role, p);
    OneRootEach(k.mm.mem, k.mm.roots, o.role, p);
    LeaveCounts(k.mm, o, p);
    LeaveDispatches(k, o, q, r);
    TerminateLeavesPeak(k.mm, p);
    TerminateSize(k, o);
    hide Inv, Step, Answer, Teardown.Terminate, Teardown.Without, OnlyRoots, Teardown.TablesOf, Extends, NewFor, Sound;
    o' := InterruptAccount(k, o, SyscallExit);
  }

  /** An exit dispatches the front of the queue. */
  lemma {:induction false} LeaveDispatches(k: Machine, o: Account, q: nat, r: nat)
    requires Inv(k, o) && k.current in k.mm.roots && k.current != 0 && k.ready == [q, r]
    ensures var k' := Step(k, Leave);
      && Inv(k', InterruptAccount(k, o, SyscallExit)) && k'.current == q && k'.ready == [r]
      && k'.mm == Teardown.Terminate(k.mm, k.current) && Answer(k, Leave) == []
  {
    hide Sound, TlbCoherent, Teardown.Terminate, InterruptAccount;
    InterruptKeeps(k, o, SyscallExit);
  }

  lemma {:induction false} LeaveCounts(s: Memory.State, o: Account, p: nat)
    requires Sound(s, o) && p in s.roots && OnlyRoots(Teardown.Without(o.role, p))
    ensures Teardown.TablesOf(o.role, p) != {}
    ensures var o' := Teardown.Closed(o, p);
      |o'.role| + o'.twice + o'.gone == |Tables(o.role)| + o.twice + o.gone
  {
    Teardown.ClosedCounts(s, o, p);
    var o' := Teardown.Closed(o, p);
    assert Tables(o'.role) == o'.role.Keys && |o'.role| == |o'.role.Keys|;
    hide Sound, OnlyRoots, Teardown.Without, Teardown.TablesOf;
  }

  /** The paths of the first three pages: one leaf table. */
  lemma FirstPaths()
    ensures MmuPath(VPage(0)) == [0, 0, 0, 0] && MmuPath(VPage(4096)) == [0, 0, 0, 1]
    ensures MmuPath(VPage(8192)) == [0, 0, 0, 2]
  {
  }

  /** The second process has a root only, and touches its first page. */
  lemma {:induction false} StageFirstPage(k: Machine, o: Account, q: nat, ready: seq<nat>) returns (o': Account)
    requires Stage(k, o, q, ready, 2, 3, 7) && q != 0 && OnlyRoots(o.role)
    ensures var k1 := Step(k, Touch(0));
      && Stage(k1, o', q, ready, 6, 3, 7) && NoTrap(Answer(k, Touch(0))) && q in k1.mm.roots
      && Mapped(k1.mm, q, [0, 0, 0, 0]).Some? && Mapped(k1.mm, q, [0, 0, 0, 1]) == None
      && Mapped(k1.mm, q, [0, 0, 0, 2]) == None
  {
    FirstPaths();
    RunningRoot(k, o);
    Room.NothingMapped(k.mm, o, q, [0, 0, 0, 0]);
    Room.NothingMapped(k.mm, o, q, [0, 0, 0, 1]);
    Room.NothingMapped(k.mm, o, q, [0, 0, 0, 2]);
    hide Inv, Step, Answer, NoTrap, OnlyRoots, Extends, NewFor, MmuPath;
    o' := StageTouch(k, o, q, ready, 2, 3, 7, 0, 4);
  }

  /** It touches one more page of that table. */
  lemma {:induction false} StageNextPage(k: Machine, o: Account, q: nat, ready: seq<nat>, live: nat, a: u64,
          v: seq<Index>)
    returns (o': Account)
    requires Stage(k, o, q, ready, live, 3, 7) && q != 0 && 6 <= live <= 7 && q in k.mm.roots
    requires v == MmuPath(VPage(a)) && v[..3] == [0, 0, 0]
    requires Mapped(k.mm, q, [0, 0, 0, 0]).Some? && Mapped(k.mm, q, v) == None
    ensures var k1 := Step(k, Touch(a));
      && Stage(k1, o', q, ready, live + 1, 3, 7) && NoTrap(Answer(k, Touch(a))) && q in k1.mm.roots
      && forall w: seq<Index> :: |w| == 4 && w != v ==> Mapped(k1.mm, q, w) == Mapped(k.mm, q, w)
  {
    assert [0, 0, 0, 0][..3] == [0, 0, 0];
    NoneMissing(k.mm, o, q, [0, 0, 0, 0], v);
    hide Inv, Step, Answer, NoTrap, OnlyRoots, Extends, NewFor, MmuPath;
    o' := StageTouch(k, o, q, ready, live, 3, 7, a, 1);
  }

  /** The second process touches three pages. */
  lemma {:induction false} StageSecond(k: Machine, o: Account, q: nat, ready: seq<nat>) returns (o': Account)
    requires Stage(k, o, q, ready, 2, 3, 7) && q != 0 && OnlyRoots(o.role)
    ensures var k1 := Step(k, Touch(0)); var k2 := Step(k1, Touch(4096));
      && Stage(Step(k2, Touch(8192)), o', q, ready, 8, 3, 7)
      && NoTrap(Answer(k, Touch(0))) && NoTrap(Answer(k1, Touch(4096))) && NoTrap(Answer(k2, Touch(8192)))
  {
    FirstPaths();
    assert [0, 0, 0, 1][..3] == [0, 0, 0] && [0, 0, 0, 2][..3] == [0, 0, 0];
    assert [0, 0, 0, 0][3] != [0, 0, 0, 1][3] && [0, 0, 0, 1][3] != [0, 0, 0, 2][3];
    hide Stage, Step, Answer, NoTrap, OnlyRoots, MmuPath, Mapped;
    var o1 := StageFirstPage(k, o, q, ready);
    var k1 := Step(k, Touch(0));
    var o2 := StageNextPage(k1, o1, q, ready, 6, 4096, [0, 0, 0, 1]);
    o' := StageNextPage(Step(k1, Touch(4096)), o2, q, ready, 7, 8192, [0, 0, 0, 2]);
  }

  lemma {:induction false} RunCons(k: Machine, e: Event, rest: seq<Event>)
    ensures Run(k, [e] + rest) == Run(Step(k, e), rest)
    ensures Runs.Answers(k, [e] + rest) == Answer(k, e) + Runs.Answers(Step(k, e), rest)
  {
    assert ([e] + rest)[1..] == rest;
  }

  lemma {:induction false} RunOfThree(k: Machine, a: Event, b: Event, c: Event)
    ensures var k1 := Step(k, a); var k2 := Step(k1, b);
      && Run(k, [a, b, c]) == Step(k2, c)
      && Runs.Answers(k, [a, b, c]) == Answer(k, a) + (Answer(k1, b) + Answer(k2, c))
  {
    hide Step, Answer;
    assert [a] + [b, c] == [a, b, c] && [b] + [c] == [b, c];
    RunCons(k, a, [b, c]);
    RunCons(Step(k, a), b, [c]);
    RunOne(Step(Step(k, a), b), c);
  }

  /** The run of six events in which the mark stays behind. */
  function SixEvents(a: u64): seq<Event> {
    [Tick, Touch(a), Leave] + [Touch(0), Touch(4096), Touch(8192)]
  }

  /** With the bitmap and three processes, in any memory of eight pages or more: the first touches a page and
      exits, the second touches three; then eight frames are in use, and the reported mark is seven. */
  lemma {:induction false} MarkStaysBehind(cfg: Config, s: Memory.State, p: nat, q: nat, r: nat, slots: seq<Tlb.Slot>,
          a: u64)
    requires FreshMemory(s) && s.mgr.BitMgr? && 8 <= Pages(s.mgr) && slots != []
    requires Distinct([p, q, r]) && 0 !in [p, q, r] && BootTables(s, [p, q, r]).Done?
    ensures var k0 := FreshMachine(cfg, BootTables(s, [p, q, r]).s, [p, q, r], slots);
      var m := Run(k0, SixEvents(a)).mm.mgr;
      NoTrap(Runs.Answers(k0, SixEvents(a))) && Peak(m) == 7 && |InUse(m)| == 8
  {
    var k0 := FreshMachine(cfg, BootTables(s, [p, q, r]).s, [p, q, r], slots);
    var o0 := BootPeak(cfg, s, [p, q, r], slots);
    assert p in [p, q, r] && q in [p, q, r];
    BootBytes(k0.mm, o0);
    hide BootTables, FreshMemory, Step, Answer, Run, Runs.Answers, Inv, OnlyRoots, Extends, NewFor, NoTrap;
    var o2 := StageFirst(k0, o0, p, q, r, a);
    var k1, k2 := Step(k0, Tick), Step(Step(k0, Tick), Touch(a));
    var o3 := StageLeave(k2, o0.role, o2, p, q, r);
    var k3 := Step(k2, Leave);
    var o6 := StageSecond(k3, o3, q, [r]);
    RunOfThree(k0, Tick, Touch(a), Leave);
    RunOfThree(k3, Touch(0), Touch(4096), Touch(8192));
    RunAppend(k0, [Tick, Touch(a), Leave], [Touch(0), Touch(4096), Touch(8192)]);
    AllAnswered(Answer(k1, Touch(a)), Answer(k3, Touch(0)), Answer(Step(k3, Touch(0)), Touch(4096)),
        Answer(Step(Step(k3, Touch(0)), Touch(4096)), Touch(8192)));
    StageInUse(Run(k0, SixEvents(a)), o6);
  }

  lemma StageInUse(k: Machine, o: Account)
    requires Inv(k, o)
    ensures |InUse(k.mm.mgr)| == |o.role|
  {
    InUseAre(k.mm, o);
  }

  lemma AllAnswered(a: seq<Translation>, b: seq<Translation>, c: seq<Translation>, d: seq<Translation>)
    requires NoTrap(a) && NoTrap(b) && NoTrap(c) && NoTrap(d)
    ensures NoTrap([] + (a + []) + (b + (c + d)))
  {
  }
}
