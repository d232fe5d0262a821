/** Which accesses are refused for want of memory, over all runs, and how a machine with the bitmap compares
    with one with the hole list. */
module Refusals {
  import opened Sv48
  import opened PageTable
  import opened Managers
  import opened Memory
  import opened Kernel
  import opened Runs
  import opened Tally
  import Room
  import Teardown
  import Tlb

  /** The frames in use. */
  ghost function InUse(m: Mgr): set<nat> {
    set f: nat | BASE_FRAME <= f < BASE_FRAME + |BitsOf(m)| && Allocated(m, f)
  }

  lemma {:induction false} InUseAre(s: Memory.State, o: Account)
    requires Sound(s, o)
    ensures InUse(s.mgr) == o.role.Keys && |InUse(s.mgr)| == |o.role|
  {
    forall f
      ensures f in InUse(s.mgr) <==> f in o.role
    {
      assert f in o.role <==> Allocated(s.mgr, f);
    }
    assert |o.role| == |o.role.Keys|;
  }

  /** What stands at address addr of the running process. */
  ghost function Standing(k: Machine, addr: u64): Option<nat> {
    Mapped(k.mm, k.current, MmuPath(VPage(addr)))
  }

  /** Frames that an access to an unmapped page takes: the page, and the tables missing on the way. */
  ghost function Wanted(k: Machine, addr: u64): nat
    requires k.current in k.mm.roots
  {
    1 + Room.Missing(k.mm.mem, k.mm.roots[k.current], MmuPath(VPage(addr)))
  }

  /** When the machine has made so many tables since it booted: the bitmap's counter lets a page out while
      the tables of ended processes, the roots excepted, outnumber the frames in use by one at most. */
  ghost predicate CounterLets(k: Machine, made: nat) {
    k.mm.mgr.BitMgr? ==> made + |k.mm.roots| - |TableFrames(k.mm)| <= |InUse(k.mm.mgr)| + 1
  }

  ghost predicate Fits(k: Machine, addr: u64)
    requires k.current in k.mm.roots
  {
    |InUse(k.mm.mgr)| + Wanted(k, addr) <= Pages(k.mm.mgr)
  }

  /** An access is refused exactly when its page is unmapped and the frames it takes cannot be had. */
  lemma {:induction false} TouchRefusedIff(k: Machine, o: Account, addr: u64)
    requires Inv(k, o) && k.current != 0 && o.twice < TWO_64 - MAX_PAGES
    ensures k.current in k.mm.roots
    ensures Access(k, addr).0.Translated? || Access(k, addr).0 == Trap(MemoryFull)
    ensures Access(k, addr).0.Translated? <==>
            Standing(k, addr).Some? || (Fits(k, addr) && Room.CounterAdmits(k.mm.mgr, |o.role|, o.twice))
  {
    RunningRoot(k, o);
    InUseAre(k.mm, o);
    var o' := AccessKeeps(k, o, addr);
    AccessIsFault(k, o, addr);
    Room.FaultIff(k.mm, o, k.current, addr);
    hide Access, Fault, Inv, Room.CounterAdmits, InUse;
  }

  /** From boot on, how often releases met a free page: once for each table made that was no root and whose
      process has ended. */
  lemma {:induction false} TwiceFromBoot(cfg: Config, s: Memory.State, pids: seq<nat>, slots: seq<Tlb.Slot>,
          es: seq<Event>)
    returns (o: Account)
    requires FreshMemory(s) && Distinct(pids) && 0 !in pids && slots != [] && BootTables(s, pids).Done?
    ensures var k0 := FreshMachine(cfg, BootTables(s, pids).s, pids, slots); var k := Run(k0, es);
      && Inv(k, o) && o.twice < TWO_64 - MAX_PAGES && |InUse(k.mm.mgr)| == |o.role|
      && o.twice == TablesMade(k0, es) + |k.mm.roots| - |TableFrames(k.mm)| && Population(k, o) == |pids|
  {
    var k0 := FreshMachine(cfg, BootTables(s, pids).s, pids, slots);
    var o0 := Boot(cfg, s, pids, slots);
    RemainingIsLive(k0, o0);
    assert Remaining(k0) == pids;
    RootsFit(k0, o0);
    BytesFromBoot(cfg, s, pids, slots, es);
    o := RunKeeps(k0, o0, es);
    var k := Run(k0, es);
    InUseAre(k.mm, o);
    TableFramesAre(k.mm, o);
    TwiceCounted(k, o, |pids|, TablesMade(k0, es));
  }

  lemma TwiceCounted(k: Machine, o: Account, n: nat, made: nat)
    requires Inv(k, o) && Population(k, o) == n && k.mm.bytes == PAGE_SIZE * (n + made)
    requires o.twice <= o.gone * MAX_PAGES && n <= MAX_PAGES
    ensures o.twice == made + |k.mm.roots| - |Tables(o.role)| && o.twice < TWO_64 - MAX_PAGES
  {
  }

  /** After every run from boot, an access of the running process is refused exactly when its page is
      unmapped and either the frames it takes are not there or the bitmap's counter does not let them out. */
  lemma {:induction false} RefusedIff(cfg: Config, s: Memory.State, pids: seq<nat>, slots: seq<Tlb.Slot>,
          es: seq<Event>, addr: u64)
    requires FreshMemory(s) && Distinct(pids) && 0 !in pids && slots != [] && BootTables(s, pids).Done?
    ensures var k0 := FreshMachine(cfg, BootTables(s, pids).s, pids, slots); var k := Run(k0, es);
      k.current != 0 ==>
        && k.current in k.mm.roots && Tlb.Ok(k.tlb)
        && (Access(k, addr).0 == Trap(MemoryFull) <==>
              Standing(k, addr).None? && !(Fits(k, addr) && CounterLets(k, TablesMade(k0, es))))
  {
    var k0 := FreshMachine(cfg, BootTables(s, pids).s, pids, slots);
    var o := TwiceFromBoot(cfg, s, pids, slots, es);
    hide BootTables, Run, TablesMade, TableFrames, InUse, Access, Fits, Standing;
    var k := Run(k0, es);
    if k.current != 0 {
      TouchRefusedIff(k, o, addr);
    }
  }

  /* ----- the bitmap and the hole list over runs ----- */

  /** The same memory, kept by a bitmap in s and by a hole list in h. */
  ghost predicate TwinMemory(s: Memory.State, h: Memory.State, o: Account) {
    && Sound(s, o) && Sound(h, o) && s.mgr.BitMgr? && h.mgr.HoleMgr? && Pages(h.mgr) == Pages(s.mgr)
    && h == s.(mgr := h.mgr)
  }

  lemma {:induction false} SameBits(s: Memory.State, h: Memory.State, o: Account)
    requires TwinMemory(s, h, o)
    ensures Ok(s.mgr) && Ok(h.mgr) && BitsOf(h.mgr) == BitsOf(s.mgr)
  {
    OkBits(s.mgr);
    OkBits(h.mgr);
    forall k | 0 <= k < |BitsOf(s.mgr)|
      ensures BitsOf(h.mgr)[k] == BitsOf(s.mgr)[k]
    {
      assert BASE_FRAME + k in o.role <==> Allocated(s.mgr, BASE_FRAME + k);
      assert BASE_FRAME + k in o.role <==> Allocated(h.mgr, BASE_FRAME + k);
    }
  }

  /** What the bitmap grants the hole list grants too. */
  lemma {:induction false} GrantedToBoth(s: Memory.State, h: Memory.State, o: Account)
    requires TwinMemory(s, h, o) && o.twice < TWO_64 - MAX_PAGES && Allocate(s.mgr, 1).0.Some?
    ensures Allocate(h.mgr, 1).0 == Allocate(s.mgr, 1).0
    ensures var m, n := Allocate(s.mgr, 1).1, Allocate(h.mgr, 1).1;
      m.BitMgr? && n.HoleMgr? && Pages(n) == Pages(m)
  {
    SameBits(s, h, o);
    Room.AllocateIff(s, o);
    Room.AllocateIff(h, o);
    AllocateOne(s.mgr);
    AllocateOne(h.mgr);
  }

  lemma ShapedOf(s: Memory.State, h: Memory.State, o: Account)
    requires TwinMemory(s, h, o)
    ensures Shaped(s, o.role) && Shaped(h, o.role)
  {
    SoundIsShaped(s, o);
    SoundIsShaped(h, o);
  }

  lemma {:induction false} PointsDown(s: Memory.State, o: Account, t: nat, i: Index)
    requires Sound(s, o) && t in o.role && o.role[t].Inner? && |o.role[t].path| < 3 && At(s.mem, t)[i].valid
    ensures var c := At(s.mem, t)[i].ppn; c in o.role && o.role[c] == Inner(o.role[t].pid, o.role[t].path + [i], t)
  {
    assert FrameOk(s.mem, s.roots, o.role, t) && EntryOk(o.role, t, s.mem[t][i], i);
  }

  lemma {:induction false} NextTableOfBoth(s: Memory.State, h: Memory.State, o: Account, t: nat, i: Index)
    returns (o': Account)
    requires TwinMemory(s, h, o) && o.twice < TWO_64 - MAX_PAGES
    requires t in o.role && o.role[t].Inner? && |o.role[t].path| < 3
    requires Memory.NextTable(s, o.role[t].pid, t, i).0.Some?
    ensures var (c, s') := Memory.NextTable(s, o.role[t].pid, t, i);
      var (d, h') := Memory.NextTable(h, o.role[t].pid, t, i);
      && d == c && TwinMemory(s', h', o') && o'.twice == o.twice && o'.gone == o.gone
      && c.value in o'.role && o'.role[c.value] == Inner(o.role[t].pid, o.role[t].path + [i], t)
      && (forall f :: f in o.role ==> f in o'.role && o'.role[f] == o.role[f])
  {
    hide Sound, Allocate, LinkNew;
    var p := o.role[t].pid;
    o' := o;
    if At(s.mem, t)[i].valid {
      PointsDown(s, o, t, i);
    } else {
      ShapedOf(s, h, o);
      MissingIsLinked(s, o.role, p, t, i);
      MissingIsLinked(h, o.role, p, t, i);
      GrantedToBoth(s, h, o);
      o' := GrowTable(s, o, t, i);
      var o2 := GrowTable(h, o, t, i);
      assert o2 == o';
      LinkedBoth(Charge(s.(mgr := Allocate(s.mgr, 1).1), p, Frame(Allocate(s.mgr, 1).0.value / PAGE_SIZE)),
          Charge(h.(mgr := Allocate(h.mgr, 1).1), p, Frame(Allocate(s.mgr, 1).0.value / PAGE_SIZE)), t, i,
          Allocate(s.mgr, 1).0.value / PAGE_SIZE);
    }
  }

  lemma LinkedBoth(s: Memory.State, h: Memory.State, t: nat, i: Index, c: nat)
    requires h == s.(mgr := h.mgr)
    ensures LinkNew(h, t, i, c) == LinkNew(s, t, i, c).(mgr := h.mgr)
    ensures LinkNew(h, t, i, c).mgr == h.mgr && LinkNew(s, t, i, c).mgr == s.mgr
  {
  }

  lemma {:induction false} MapsInBoth(s: Memory.State, h: Memory.State, o: Account, t: nat, idx: seq<Index>, d: nat)
    returns (o': Account)
    requires TwinMemory(s, h, o) && o.twice < TWO_64 - MAX_PAGES && idx != []
    requires t in o.role && o.role[t].Inner? && |o.role[t].path| + |idx| == 4
    requires d in o.role && o.role[d] == Loose(o.role[t].pid)
    requires MapFrom(s, o.role[t].pid, t, idx, d).Done?
    ensures var r := MapFrom(h, o.role[t].pid, t, idx, d);
      r.Done? && TwinMemory(MapFrom(s, o.role[t].pid, t, idx, d).s, r.s, o') && o'.twice == o.twice && o'.gone == o.gone
    decreases |idx|
  {
    hide Sound, Memory.NextTable;
    var p := o.role[t].pid;
    if |idx| == 1 {
      LeafKeeps(s, o, t, idx[0], d);
      LeafKeeps(h, o, t, idx[0], d);
      o' := o.(role := LeafRole(o.role, t, idx[0], At(s.mem, t)[idx[0]], d));
    } else {
      var o1 := NextTableOfBoth(s, h, o, t, idx[0]);
      var (c, s1) := Memory.NextTable(s, p, t, idx[0]);
      o' := MapsInBoth(s1, Memory.NextTable(h, p, t, idx[0]).1, o1, c.value, idx[1..], d);
    }
  }

  /** A fault that the bitmap's machine serves, the hole list's serves with the same frames. */
  lemma {:induction false} FaultInBoth(s: Memory.State, h: Memory.State, o: Account, p: nat, addr: u64)
    returns (o': Account)
    requires TwinMemory(s, h, o) && o.twice < TWO_64 - MAX_PAGES && p in s.roots && Fault(s, p, addr).Done?
    ensures Fault(h, p, addr).Done? && TwinMemory(Fault(s, p, addr).s, Fault(h, p, addr).s, o')
    ensures o'.twice == o.twice && o'.gone == o.gone
  {
    GrantedToBoth(s, h, o);
    ChargeKeeps(s, o, p);
    ChargeKeeps(h, o, p);
    TakeFrame(s, o.role);
    RootRole(s, o, p);
    FaultIsMapFrom(s, p, addr);
    FaultIsMapFrom(h, p, addr);
    hide Sound, Fault, MapFrom, Allocate;
    var (a, m) := Allocate(s.mgr, 1);
    var d := a.value / PAGE_SIZE;
    o' := MapsInBoth(Charge(s.(mgr := m), p, Frame(d)), Charge(h.(mgr := Allocate(h.mgr, 1).1), p, Frame(d)),
        o.(role := o.role[d := Loose(p)]), s.roots[p], MmuPath(VPage(addr)), d);
  }

  /** The same machine, with a bitmap in k and a hole list in h. */
  ghost predicate Twins(k: Machine, h: Machine, o: Account) {
    Inv(k, o) && TwinMemory(k.mm, h.mm, o) && h == k.(mm := h.mm)
  }

  lemma {:induction false} TwinsInv(k: Machine, h: Machine, o: Account)
    requires Twins(k, h, o)
    ensures Inv(h, o)
  {
  }

  lemma TranslatesInBoth(k: Machine, h: Machine, addr: u64)
    requires Tlb.Ok(k.tlb) && h == k.(mm := h.mm) && h.mm == k.mm.(mgr := h.mm.mgr)
    ensures GetTranslation(h, addr).0 == GetTranslation(k, addr).0
    ensures GetTranslation(h, addr).1 == GetTranslation(k, addr).1.(mm := h.mm)
    ensures GetTranslation(k, addr).1.mm == k.mm
  {
  }

  /** What the machine with the bitmap answers, the one with the hole list answers likewise. */
  lemma {:induction false} AnsweredByBoth(k: Machine, h: Machine, o: Account, addr: u64) returns (o': Account)
    requires Twins(k, h, o) && k.current != 0 && o.twice < TWO_64 - MAX_PAGES && Access(k, addr).0.Translated?
    ensures Access(h, addr).0 == Access(k, addr).0
    ensures Twins(Access(k, addr).1, Access(h, addr).1, o') && o'.twice == o.twice && o'.gone == o.gone
  {
    RunningRoot(k, o);
    TranslatesInBoth(k, h, addr);
    var o1 := AccessKeeps(k, o, addr);
    GetTranslationKeeps(k, o, addr);
    o' := o;
    var (t, k1) := GetTranslation(k, addr);
    if t == PageFault {
      o' := FaultInBoth(k.mm, h.mm, o, k.current, addr);
      var k2, h2 := HandleFault(k1, addr).1, HandleFault(GetTranslation(h, addr).1, addr).1;
      TranslatesInBoth(k2, h2, addr);
    }
  }

  lemma {:induction false} TerminatedInBoth(s: Memory.State, h: Memory.State, o: Account, p: nat)
    requires TwinMemory(s, h, o) && p in s.roots
    ensures Teardown.TablesOf(o.role, p) != {}
    ensures TwinMemory(Teardown.Terminate(s, p), Teardown.Terminate(h, p), Teardown.Closed(o, p))
  {
    Teardown.TerminateKeeps(s, o, p);
    Teardown.TerminateKeeps(h, o, p);
    Teardown.ReleasedBoth(s, o, p);
    Teardown.ReleasedBoth(h, o, p);
    hide Sound, Teardown.ReleaseGrants;
  }

  lemma {:induction false} InterruptPopulation(k: Machine, o: Account, i: Interrupt)
    requires Inv(k, o) && (i.SyscallExit? ==> k.current != 0)
    ensures k.current in k.mm.roots || k.current == 0
    ensures Population(HandleInterrupt(k, i), InterruptAccount(k, o, i)) == Population(k, o)
  {
    InterruptKeeps(k, o, i);
    if i.SyscallExit? {
      Teardown.TerminateKeeps(k.mm, o, k.current);
      Teardown.TerminateKind(k.mm, k.current);
    }
    hide Inv, HandleInterrupt, Teardown.Terminate;
  }

  /** Memory after an interrupt. */
  ghost function AfterInterrupt(k: Machine, i: Interrupt): Memory.State
    requires i.SyscallExit? ==> k.current in k.mm.roots
  {
    if i.SyscallExit? then Teardown.Terminate(k.mm, k.current) else k.mm
  }

  lemma InterruptSame(k: Machine, h: Machine, i: Interrupt)
    requires (i.SyscallExit? ==> k.current in k.mm.roots) && h == k.(mm := h.mm) && h.mm == k.mm.(mgr := h.mm.mgr)
    requires AfterInterrupt(h, i) == AfterInterrupt(k, i).(mgr := AfterInterrupt(h, i).mgr)
    ensures HandleInterrupt(h, i) == HandleInterrupt(k, i).(mm := AfterInterrupt(h, i))
    ensures HandleInterrupt(k, i).mm == AfterInterrupt(k, i)
  {
    hide Teardown.Terminate;
  }

  lemma {:induction false} InterruptInBoth(k: Machine, h: Machine, o: Account, i: Interrupt)
    requires Twins(k, h, o) && (i.SyscallExit? ==> k.current != 0)
    ensures k.current in k.mm.roots || k.current == 0
    ensures Twins(HandleInterrupt(k, i), HandleInterrupt(h, i), InterruptAccount(k, o, i))
    ensures Population(HandleInterrupt(k, i), InterruptAccount(k, o, i)) == Population(k, o)
  {
    hide Inv, HandleInterrupt, Teardown.Terminate, Population, Sound;
    InterruptKeeps(k, o, i);
    InterruptPopulation(k, o, i);
    if i.SyscallExit? {
      SoundOf(k, o);
      TerminatedInBoth(k.mm, h.mm, o, k.current);
    }
    InterruptSame(k, h, i);
  }

  lemma SoundOf(k: Machine, o: Account)
    requires Inv(k, o)
    ensures Sound(k.mm, o)
  {
  }

  /** An event that the bitmap's machine does not trap on happens in both alike. */
  lemma {:induction false} StepInBoth(k: Machine, h: Machine, o: Account, e: Event) returns (o': Account)
    requires Twins(k, h, o) && FewReleases(k, o) && NoTrap(Answer(k, e))
    ensures Answer(h, e) == Answer(k, e) && Twins(Step(k, e), Step(h, e), o') && FewReleases(Step(k, e), o')
    ensures Population(Step(k, e), o') == Population(k, o)
  {
    TwinsInv(k, h, o);
    hide HandleInterrupt, Access, TwinMemory, InterruptAccount;
    o' := o;
    if Enabled(k, e) {
      match e {
        case Touch(addr) =>
          assert Answer(k, e) == [Access(k, addr).0] && Answer(k, e)[0].Translated?;
          o' := AnsweredByBoth(k, h, o, addr);
          SamePopulation(k, o, o', addr);
        case Tick =>
          InterruptInBoth(k, h, o, Timer);
          InterruptFits(k, o, Timer);
          o' := InterruptAccount(k, o, Timer);
        case Leave =>
          InterruptInBoth(k, h, o, SyscallExit);
          InterruptFits(k, o, SyscallExit);
          o' := InterruptAccount(k, o, SyscallExit);
      }
    }
  }

  /** As long as the bitmap's machine traps on nothing, the two answer alike and stay twins. */
  lemma {:induction false} RunInBoth(k: Machine, h: Machine, o: Account, es: seq<Event>) returns (o': Account)
    requires Twins(k, h, o) && FewReleases(k, o) && NoTrap(Runs.Answers(k, es))
    ensures Runs.Answers(h, es) == Runs.Answers(k, es)
    ensures Twins(Run(k, es), Run(h, es), o') && FewReleases(Run(k, es), o')
    ensures Population(Run(k, es), o') == Population(k, o)
    decreases |es|
  {
    hide Step, Answer, Twins, FewReleases, Population;
    o' := o;
    if es == [] {
    } else {
      NoTrapParts(Answer(k, es[0]), Runs.Answers(Step(k, es[0]), es[1..]));
      var o1 := StepInBoth(k, h, o, es[0]);
      o' := RunInBoth(Step(k, es[0]), Step(h, es[0]), o1, es[1..]);
    }
  }

  lemma {:induction false} RootInBoth(s: Memory.State, h: Memory.State, o: Account, p: nat) returns (o': Account)
    requires TwinMemory(s, h, o) && o.twice == 0 && p != 0 && p !in s.roots && AllocatePageTable(s, 0, p).Done?
    ensures var r, q := AllocatePageTable(s, 0, p), AllocatePageTable(h, 0, p);
      && q.Done? && TwinMemory(r.s, q.s, o') && o'.twice == 0 && o'.gone == o.gone
      && r.s.roots.Keys == s.roots.Keys + {p}
  {
    ShapedOf(s, h, o);
    NewTableIs(s, o.role, 0);
    NewTableIs(h, o.role, 0);
    GrantedToBoth(s, h, o);
    WithRootSound(s, o, p);
    WithRootSound(h, o, p);
    hide Sound, Allocate, NewTable;
    assert AllocatePageTable(s, 0, p) == Done(WithRoot(s, p));
    assert AllocatePageTable(h, 0, p) == Done(WithRoot(h, p));
    o' := o.(role := o.role[Allocate(s.mgr, 1).0.value / PAGE_SIZE := Inner(p, [], 0)]);
  }

  lemma {:induction false} BootInBoth(s: Memory.State, h: Memory.State, o: Account, pids: seq<nat>)
    returns (o': Account)
    requires TwinMemory(s, h, o) && o.twice == 0 && Distinct(pids) && 0 !in pids
    requires (forall p :: p in pids ==> p !in s.roots) && BootTables(s, pids).Done?
    ensures BootTables(h, pids).Done? && TwinMemory(BootTables(s, pids).s, BootTables(h, pids).s, o')
    ensures o'.twice == 0 && o'.gone == o.gone
    decreases |pids|
  {
    hide TwinMemory, AllocatePageTable, Distinct;
    o' := o;
    if pids == [] {
    } else {
      var p := pids[0];
      RestDistinct(pids);
      var o1 := RootInBoth(s, h, o, p);
      o' := BootInBoth(AllocatePageTable(s, 0, p).s, AllocatePageTable(h, 0, p).s, o1, pids[1..]);
    }
  }

  /** Both machines once they have booted from fresh memory. */
  lemma {:induction false} BootTwins(cfg: Config, s: Memory.State, m: Mgr, pids: seq<nat>, slots: seq<Tlb.Slot>)
    returns (o: Account)
    requires FreshMemory(s) && s.mgr.BitMgr? && FreshMgr(m) && m.HoleMgr? && Pages(m) == Pages(s.mgr)
    requires Distinct(pids) && 0 !in pids && slots != [] && BootTables(s, pids).Done?
    ensures BootTables(s.(mgr := m), pids).Done?
    ensures var k := FreshMachine(cfg, BootTables(s, pids).s, pids, slots);
      Twins(k, FreshMachine(cfg, BootTables(s.(mgr := m), pids).s, pids, slots), o) && FewReleases(k, o)
      && Population(k, o) == |pids|
  {
    var h := s.(mgr := m);
    FreshSound(s);
    FreshSound(h);
    o := BootInBoth(s, h, Account(map[], 0, 0), pids);
    var k := FreshMachine(cfg, BootTables(s, pids).s, pids, slots);
    var o1 := Boot(cfg, s, pids, slots);
    RemainingIsLive(k, o1);
    assert Remaining(k) == pids;
    RootsFit(k, o1);
  }

  /** Both machines at the next access: they differ exactly when the page is unmapped, the frames are there,
      and the bitmap's counter does not let them out. */
  lemma {:induction false} NextInBoth(k: Machine, h: Machine, o: Account, addr: u64)
    requires Twins(k, h, o) && k.current != 0 && o.twice < TWO_64 - MAX_PAGES
    ensures k.current in k.mm.roots && Tlb.Ok(k.tlb) && Tlb.Ok(h.tlb)
    ensures Access(h, addr).0 == Access(k, addr).0 <==>
            Standing(k, addr).Some? || !Fits(k, addr) || Room.CounterAdmits(k.mm.mgr, |o.role|, o.twice)
  {
    TwinsInv(k, h, o);
    InUseAre(k.mm, o);
    InUseAre(h.mm, o);
    TouchRefusedIff(k, o, addr);
    TouchRefusedIff(h, o, addr);
    if Access(k, addr).0.Translated? {
      var o' := AnsweredByBoth(k, h, o, addr);
    }
    hide Access, Inv, TwinMemory, InUse;
  }

  /** Twins count alike: the counters are those of one account. */
  lemma {:induction false} SameTwice(k: Machine, o: Account, o': Account)
    requires Inv(k, o) && Inv(k, o') && Population(k, o) == Population(k, o')
    ensures o.role.Keys == o'.role.Keys && |o.role| == |o'.role| && o.twice == o'.twice
  {
    InUseAre(k.mm, o);
    InUseAre(k.mm, o');
    TableFramesAre(k.mm, o);
    TableFramesAre(k.mm, o');
    hide InUse, TableFrames;
  }

  /** From boot, over every run that the machine with the bitmap answers without a trap, the machine with the
      hole list answers the same and is the same but for its manager; and the next access is the first
      to be answered differently exactly when its page is unmapped, the frames it takes are there, and
      the bitmap's counter does not let them out. */
  lemma {:induction false} ManagersOverRuns(cfg: Config, s: Memory.State, m: Mgr, pids: seq<nat>, slots: seq<Tlb.Slot>,
          es: seq<Event>, addr: u64)
    requires FreshMemory(s) && s.mgr.BitMgr? && FreshMgr(m) && m.HoleMgr? && Pages(m) == Pages(s.mgr)
    requires Distinct(pids) && 0 !in pids && slots != [] && BootTables(s, pids).Done?
    requires NoTrap(Runs.Answers(FreshMachine(cfg, BootTables(s, pids).s, pids, slots), es))
    ensures BootTables(s.(mgr := m), pids).Done?
    ensures var k0 := FreshMachine(cfg, BootTables(s, pids).s, pids, slots);
      var h0 := FreshMachine(cfg, BootTables(s.(mgr := m), pids).s, pids, slots);
      var k, h := Run(k0, es), Run(h0, es);
      && Runs.Answers(h0, es) == Runs.Answers(k0, es) && h == k.(mm := k.mm.(mgr := h.mm.mgr))
      && (k.current != 0 ==>
            && k.current in k.mm.roots && Tlb.Ok(k.tlb)
            && (Access(h, addr).0 == Access(k, addr).0 <==>
                  Standing(k, addr).Some? || !Fits(k, addr) || CounterLets(k, TablesMade(k0, es))))
  {
    var k0 := FreshMachine(cfg, BootTables(s, pids).s, pids, slots);
    var h0 := FreshMachine(cfg, BootTables(s.(mgr := m), pids).s, pids, slots);
    var o0 := BootTwins(cfg, s, m, pids, slots);
    var o := RunInBoth(k0, h0, o0, es);
    var o1 := TwiceFromBoot(cfg, s, pids, slots, es);
    hide BootTables, Run, Runs.Answers, TablesMade, TableFrames, InUse, Access, Fits, Standing, NoTrap;
    var k, h := Run(k0, es), Run(h0, es);
    SameTwice(k, o, o1);
    if k.current != 0 {
      NextInBoth(k, h, o, addr);
    }
  }
}
