/** When a page fault can be served: how many frames it takes, and when the manager has them. */
module Room {
  import opened Sv48
  import opened PageTable
  import opened Managers
  import opened Memory
  import opened Kernel
  import opened Runs
  import Bitmap
  import Teardown
  import Tlb

  /** Tables missing on the way from table t along idx. */
  function Missing(mem: Ram, t: nat, idx: seq<Index>): nat
    decreases |idx|
  {
    if |idx| <= 1 then 0
    else
      var e := At(mem, t)[idx[0]];
      if e.valid then Missing(mem, e.ppn, idx[1..]) else |idx| - 1
  }

  /** Some page is free exactly when fewer frames are in use than there are. */
  lemma {:induction false} FreePageIff(s: Memory.State, o: Account)
    requires Sound(s, o)
    ensures |o.role| <= Pages(s.mgr)
    ensures Bitmap.FirstFit(BitsOf(s.mgr), 1, 0).Some? <==> |o.role| < Pages(s.mgr)
  {
    var n, bits := Pages(s.mgr), BitsOf(s.mgr);
    OkBits(s.mgr);
    Teardown.AllInRange(s, o);
    assert o.role.Keys <= FrameRange(n);
    Teardown.SubsetCard(o.role.Keys, FrameRange(n));
    if |o.role| < n {
      assert exists f :: f in FrameRange(n) && f !in o.role by {
        if FrameRange(n) <= o.role.Keys {
          Teardown.SubsetCard(FrameRange(n), o.role.Keys);
        }
      }
      var f :| f in FrameRange(n) && f !in o.role;
      assert !Allocated(s.mgr, f);
      assert Bitmap.FreeRun(bits, f - BASE_FRAME, 1);
    } else {
      forall k | 0 <= k < n
        ensures !Bitmap.FreeRun(bits, k, 1)
      {
        assert BASE_FRAME + k in FrameRange(n);
        assert Allocated(s.mgr, BASE_FRAME + k);
      }
    }
  }

  /** The bitmap's counter has gone below zero when pages released twice outnumber those in use; one
      below is let through, since adding the request brings it back to zero. */
  predicate CounterAdmits(m: Mgr, live: nat, twice: nat) {
    m.BitMgr? ==> twice <= live + 1
  }

  lemma {:induction false} AllocateIff(s: Memory.State, o: Account)
    requires Sound(s, o) && o.twice < TWO_64 - MAX_PAGES
    ensures |o.role| <= Pages(s.mgr)
    ensures Allocate(s.mgr, 1).0.Some? <==>
            |o.role| < Pages(s.mgr) && CounterAdmits(s.mgr, |o.role|, o.twice)
  {
    hide Allocate, TreeOk, LedgerOk, RolesAreAllocated, CounterAdmits;
    AllocateOne(s.mgr);
    FreePageIff(s, o);
    CounterPasses(s.mgr, |o.role|, o.twice);
  }

  /** With a page free, the counter lets a request for one through exactly when it admits one. */
  lemma CounterPasses(m: Mgr, live: nat, twice: nat)
    requires live <= Pages(m) <= MAX_PAGES && twice < TWO_64 - MAX_PAGES
    ensures live < Pages(m) ==>
              ((CountOf(m.BitMgr?, live, twice) + 1) % TWO_64 <= Pages(m) <==> CounterAdmits(m, live, twice))
  {
    ModStep(if m.BitMgr? then live - twice else live);
  }

  /** Whether the manager can hand out n more frames one by one. */
  predicate Grants(m: Mgr, live: nat, twice: nat, n: nat) {
    n == 0 || (live + n <= Pages(m) && CounterAdmits(m, live, twice))
  }

  lemma {:induction false} MissingBelowCleared(mem: Ram, t: nat, idx: seq<Index>)
    requires idx != [] && forall i: Index :: !At(mem, t)[i].valid
    ensures Missing(mem, t, idx) == |idx| - 1
  {
  }

  /** Mapping below a table succeeds exactly when the manager can hand out the missing tables, and
      then creates just those. */
  lemma {:induction false} MapFromIff(s: Memory.State, o: Account, t: nat, idx: seq<Index>, d: nat)
    requires Sound(s, o) && idx != [] && o.twice < TWO_64 - MAX_PAGES
    requires t in o.role && o.role[t].Inner? && |o.role[t].path| + |idx| == 4
    ensures var r := MapFrom(s, o.role[t].pid, t, idx, d); var n := Missing(s.mem, t, idx);
      && (r.Done? <==> Grants(s.mgr, |o.role|, o.twice, n))
      && (r.Done? ==> r.s.bytes == s.bytes + n * PAGE_SIZE)
    decreases |idx|
  {
    var p, e := o.role[t].pid, At(s.mem, t)[idx[0]];
    assert FrameOk(s.mem, s.roots, o.role, t) && EntryOk(o.role, t, e, idx[0]);
    if |idx| == 1 {
    } else {
      if e.valid {
        MapFromIff(s, o, e.ppn, idx[1..], d);
      } else {
        MapNewIff(s, o, t, idx, d);
      }
    }
  }

  lemma {:induction false} MapNewIff(s: Memory.State, o: Account, t: nat, idx: seq<Index>, d: nat)
    requires Sound(s, o) && |idx| > 1 && o.twice < TWO_64 - MAX_PAGES
    requires t in o.role && o.role[t].Inner? && |o.role[t].path| + |idx| == 4
    requires !At(s.mem, t)[idx[0]].valid
    ensures var r := MapFrom(s, o.role[t].pid, t, idx, d); var n := |idx| - 1;
      && (r.Done? <==> Grants(s.mgr, |o.role|, o.twice, n))
      && (r.Done? ==> r.s.bytes == s.bytes + n * PAGE_SIZE)
    decreases |idx|, 0
  {
    var p := o.role[t].pid;
    AllocateIff(s, o);
    OnePage();
    var o2 := GrowTable(s, o, t, idx[0]);
    SoundIsShaped(s, o);
    MissingIsLinked(s, o.role, p, t, idx[0]);
    AllocateOne(s.mgr);
    hide Sound, Shaped, NextTable, Allocate, Allocated, SameMaps, Ok;
    var (c, s2) := NextTable(s, p, t, idx[0]);
    if c.Some? {
      MissingBelowCleared(s2.mem, c.value, idx[1..]);
      RoleAdded(o.role, c.value, Inner(p, o.role[t].path + [idx[0]], t));
      MapFromIff(s2, o2, c.value, idx[1..], d);
    }
  }

  /** A page fault is served exactly when the manager can hand out a page and the missing tables.
      For the bitmap, free frames are not enough: it refuses while the inner tables of ended
      processes, released twice, outnumber the frames in use by more than one. */
  lemma {:induction false} FaultIff(s: Memory.State, o: Account, p: nat, addr: u64)
    requires Sound(s, o) && p in s.roots && o.twice < TWO_64 - MAX_PAGES
    ensures var r := Fault(s, p, addr); var n := 1 + Missing(s.mem, s.roots[p], MmuPath(VPage(addr)));
      && (r.Done? <==> |o.role| + n <= Pages(s.mgr) && CounterAdmits(s.mgr, |o.role|, o.twice))
      && (r.Done? ==> r.s.bytes == s.bytes + (n - 1) * PAGE_SIZE)
  {
    AllocateIff(s, o);
    AllocateOne(s.mgr);
    RootRole(s, o, p);
    var (a, m) := Allocate(s.mgr, 1);
    if a.Some? {
      var d := a.value / PAGE_SIZE;
      TakeFrame(s, o.role);
      ChargeKeeps(s, o, p);
      FaultIsMapFrom(s, p, addr);
      RoleAdded(o.role, d, Loose(p));
      MapFromIff(Charge(s.(mgr := m), p, Frame(d)), o.(role := o.role[d := Loose(p)]), s.roots[p],
                 MmuPath(VPage(addr)), d);
    }
  }

  /* ----- a refusal with memory to spare ----- */

  /** Below a root that maps nothing, every table is missing. */
  lemma {:induction false} NothingMapped(s: Memory.State, o: Account, p: nat, idx: seq<Index>)
    requires Sound(s, o) && p in s.roots && |idx| == 4
    requires forall f :: f in o.role && o.role[f].pid == p ==> IsRoot(o.role[f])
    ensures Missing(s.mem, s.roots[p], idx) == 3 && Mapped(s, p, idx) == None
  {
    RootRole(s, o, p);
    var t := s.roots[p];
    assert FrameOk(s.mem, s.roots, o.role, t) && EntryOk(o.role, t, s.mem[t][idx[0]], idx[0]);
  }

  /** The first access of a process that maps nothing, with four frames left. */
  lemma {:induction false} FirstAccess(k: Machine, o: Account, addr: u64) returns (o': Account)
    requires Inv(k, o) && k.current != 0 && o.twice == 0
    requires OnlyRoots(o.role) && |o.role| + 4 <= Pages(k.mm.mgr)
    ensures var (t, k') := Access(k, addr);
      && t.Translated? && Inv(k', o') && o'.twice == 0 && o'.gone == o.gone
      && k'.ready == k.ready && k'.current == k.current && k'.mm.roots == k.mm.roots
      && k'.mm.bytes == k.mm.bytes + 3 * PAGE_SIZE
      && SameSize(k.mm.mgr, k'.mm.mgr)
      && (forall f :: f in o.role ==> f in o'.role && o'.role[f] == o.role[f])
      && (forall f :: f in o'.role && f !in o.role ==> o'.role[f].pid == k.current)
  {
    var (t, k1) := GetTranslation(k, addr);
    RunningRoot(k, o);
    NothingMapped(k.mm, o, k.current, MmuPath(VPage(addr)));
    Transparent(k, o, addr);
    WalkIsMapped(k, o, addr);
    GetTranslationKeeps(k, o, addr);
    FaultIff(k.mm, o, k.current, addr);
    var d: nat;
    o', d := HandleFaultKeeps(k1, o, addr);
    var (e, k2) := HandleFault(k1, addr);
    Transparent(k2, o', addr);
    WalkIsMapped(k2, o', addr);
    GetTranslationKeeps(k2, o', addr);
    FaultSize(k.mm, k.current, addr);
  }

  /** A manager stays of its kind and size. */
  predicate SameSize(m: Mgr, m': Mgr) {
    m'.BitMgr? == m.BitMgr? && Pages(m') == Pages(m)
  }

  lemma AllocateSize(m: Mgr, count: nat)
    ensures SameSize(m, Allocate(m, count).1)
  {
  }

  lemma {:induction false} MapFromSize(s: Memory.State, p: nat, t: nat, idx: seq<Index>, d: nat)
    requires idx != []
    ensures SameSize(s.mgr, MapFrom(s, p, t, idx, d).s.mgr)
    decreases |idx|
  {
    if |idx| == 1 {
    } else {
      AllocateSize(s.mgr, PagesFor(PAGE_SIZE));
      var (c, s1) := NextTable(s, p, t, idx[0]);
      if c.Some? {
        MapFromSize(s1, p, c.value, idx[1..], d);
      }
    }
  }

  lemma {:induction false} FaultSize(s: Memory.State, p: nat, addr: u64)
    ensures SameSize(s.mgr, Fault(s, p, addr).s.mgr)
  {
    AllocateSize(s.mgr, 1);
    var (a, m) := Allocate(s.mgr, 1);
    if a.Some? && p in s.roots {
      MapFromSize(Charge(s.(mgr := m), p, Grant(a.value, PAGE_SIZE)), p, s.roots[p], DriverPath(PageBase(addr)),
                  a.value / PAGE_SIZE);
    }
  }

  lemma {:induction false} BootSize(s: Memory.State, pids: seq<nat>)
    ensures SameSize(s.mgr, BootTables(s, pids).s.mgr)
    decreases |pids|
  {
    if pids == [] {
    } else {
      AllocateSize(s.mgr, PagesFor(PAGE_SIZE));
      var r := AllocatePageTable(s, 0, pids[0]);
      if r.Done? {
        BootSize(r.s, pids[1..]);
      }
    }
  }

  /** A root can be made exactly when a frame is free, as long as nothing was released twice. */
  lemma {:induction false} RootIff(s: Memory.State, o: Account, p: nat) returns (o': Account)
    requires Sound(s, o) && o.twice == 0 && p != 0 && p !in s.roots
    ensures var r := AllocatePageTable(s, 0, p);
      && |o.role| <= Pages(s.mgr) && (r.Done? <==> |o.role| < Pages(s.mgr)) && (r.Failed? ==> r.error == MemoryFull)
      && (r.Done? ==>
            && Sound(r.s, o') && o'.twice == 0 && |o'.role| == |o.role| + 1
            && Pages(r.s.mgr) == Pages(s.mgr) && r.s.roots.Keys == s.roots.Keys + {p})
  {
    hide Sound;
    AllocateIff(s, o);
    OnePage();
    AllocateSize(s.mgr, 1);
    o' := RootKeeps(s, o, p);
    var r := AllocatePageTable(s, 0, p);
    if r.Done? {
      RoleAdded(o.role, r.s.roots[p], Inner(p, [], 0));
    }
  }

  /** The kernel starts exactly when there is a frame for the root of each process. */
  lemma {:induction false} BootIff(s: Memory.State, o: Account, pids: seq<nat>)
    requires Sound(s, o) && o.twice == 0 && Distinct(pids) && 0 !in pids
    requires |o.role| <= Pages(s.mgr) && forall p :: p in pids ==> p !in s.roots
    ensures var r := BootTables(s, pids);
      && (r.Done? <==> |o.role| + |pids| <= Pages(s.mgr))
      && (r.Failed? ==> r.error == MemoryFull)
    decreases |pids|
  {
    hide Sound, AllocatePageTable;
    if pids == [] {
    } else {
      var p, rest := pids[0], pids[1..];
      assert pids == [p] + rest;
      var o1 := RootIff(s, o, p);
      var r := AllocatePageTable(s, 0, p);
      if r.Done? {
        assert forall q :: q in rest ==> q != p && q !in r.s.roots;
        BootIff(r.s, o1, rest);
      }
    }
  }

  /** Process p runs with everything it got since roles role0, when there were only roots; q waits. */
  ghost predicate AllButRootsOf(k: Machine, role0: Roles, role: Roles, p: nat, q: nat) {
    && k.current == p != 0 && k.ready == [q] && q != 0 && OnlyRoots(role0)
    && (forall f :: f in role0 ==> f in role && role[f] == role0[f])
    && (forall f :: f in role && f !in role0 ==> role[f].pid == p)
  }

  /** Only the root of q is left when the other process, the only one with pages, has ended. */
  lemma {:induction false} OnlyRootLeft(k: Machine, role0: Roles, o: Account, p: nat, q: nat)
    requires Inv(k, o) && AllButRootsOf(k, role0, o.role, p, q)
    ensures q in k.mm.roots && Teardown.Without(o.role, p).Keys == {k.mm.roots[q]}
    ensures OnlyRoots(Teardown.Without(o.role, p))
  {
    assert q in k.ready && q in k.mm.roots;
    RootRole(k.mm, o, q);
    forall f
      ensures f in Teardown.Without(o.role, p).Keys <==> f == k.mm.roots[q]
    {
      if f in o.role {
        assert FrameOk(k.mm.mem, k.mm.roots, o.role, f);
        assert o.role[f].pid in k.mm.roots;
      }
    }
  }

  ghost predicate OnlyFrame(m: Mgr, f: nat) {
    forall g: nat :: Allocated(m, g) <==> g == f
  }

  /** Two processes that map nothing, the first dispatched. */
  ghost predicate TwoWaiting(k: Machine, o: Account, p: nat, q: nat) {
    && Inv(k, o) && k.current == 0 && k.ready == [p, q]
    && OnlyRoots(o.role) && |o.role| == 2 && o.twice == 0 && o.gone == 0
    && k.mm.mgr.BitMgr? && 6 <= Pages(k.mm.mgr)
  }

  /** The first process is dispatched and touches a page. */
  lemma {:induction false} FirstComes(k: Machine, o: Account, p: nat, q: nat, a: u64) returns (o': Account)
    requires TwoWaiting(k, o, p, q) && p != 0 && q != 0
    ensures var k1 := Step(k, Tick); var k2 := Step(k1, Touch(a));
      && Answer(k, Tick) == [] && |Answer(k1, Touch(a))| == 1 && Answer(k1, Touch(a))[0].Translated?
      && Inv(k2, o') && o'.gone == 0 && k2.mm.bytes == k.mm.bytes + 3 * PAGE_SIZE && k2.mm.mgr.BitMgr?
      && AllButRootsOf(k2, o.role, o'.role, p, q)
  {
    InterruptKeeps(k, o, Timer);
    var k1 := Step(k, Tick);
    assert k1.current == p && k1.ready == [q] && k1.mm == k.mm;
    o' := FirstAccess(k1, o, a);
  }

  /** It ends; the second is dispatched. */
  lemma {:induction false} FirstGoes(k: Machine, role0: Roles, o: Account, p: nat, q: nat) returns (o': Account)
    requires Inv(k, o) && AllButRootsOf(k, role0, o.role, p, q) && o.gone == 0 && k.mm.mgr.BitMgr?
    ensures var k' := Step(k, Leave);
      && Answer(k, Leave) == []
      && Inv(k', o') && k'.current == q && k'.mm.mgr.BitMgr? && k'.mm.bytes == k.mm.bytes
      && OnlyRoots(o'.role) && |o'.role| == 1 && o'.gone == 1
      && exists f :: OnlyFrame(k'.mm.mgr, f)
  {
    OnlyRootLeft(k, role0, o, p, q);
    InterruptKeeps(k, o, SyscallExit);
    Teardown.TerminateKeeps(k.mm, o, p);
    Teardown.TerminateKind(k.mm, p);
    o' := Teardown.Closed(o, p);
    var k' := Step(k, Leave);
    assert |o'.role| == |o'.role.Keys|;
    assert OnlyFrame(k'.mm.mgr, k.mm.roots[q]) by {
      assert forall g: nat :: Allocated(k'.mm.mgr, g) <==> g in o'.role.Keys;
    }
  }

  /** With the bitmap and two processes, however much memory there is: the first touches one page
      and exits; the first access of the second is then refused although only one frame is in use. */
  lemma {:induction false} RefusedWithFreeMemory(cfg: Config, s: Memory.State, p: nat, q: nat, slots: seq<Tlb.Slot>,
          a: u64, b: u64)
    requires FreshMemory(s) && s.mgr.BitMgr? && 6 <= Pages(s.mgr)
    requires p != 0 && q != 0 && p != q && slots != []
    requires BootTables(s, [p, q]).Done?
    ensures var k := FreshMachine(cfg, BootTables(s, [p, q]).s, [p, q], slots);
      var ts := Runs.Answers(k, [Tick, Touch(a), Leave, Touch(b)]);
      && |ts| == 2 && ts[0].Translated? && ts[1] == Trap(MemoryFull)
      && exists f :: OnlyFrame(Run(k, [Tick, Touch(a), Leave]).mm.mgr, f)
  {
    hide Inv, Step, Answer, Run, Runs.Answers, BootTables, AllButRootsOf, FreshMemory, OnlyFrame;
    var k0 := FreshMachine(cfg, BootTables(s, [p, q]).s, [p, q], slots);
    var o0 := Boot(cfg, s, [p, q], slots);
    BootSize(s, [p, q]);
    var o2 := FirstComes(k0, o0, p, q, a);
    var k2 := Step(Step(k0, Tick), Touch(a));
    var o3 := FirstGoes(k2, o0.role, o2, p, q);
    var k3 := Step(k2, Leave);
    CountsAfterExit(s, k0, o0, k3, o3);
    LastRefused(k3, o3, b);
    RunOfFour(k0, Tick, Touch(a), Leave, Touch(b));
  }

  /** Two roots and three inner tables were made, one process has ended and one root is left. */
  lemma {:induction false} CountsAfterExit(s: Memory.State, k0: Machine, o0: Account, k3: Machine, o3: Account)
    requires Inv(k0, o0) && OnlyRoots(o0.role) && |o0.role| == 2 && o0.twice == 0 && o0.gone == 0
    requires Inv(k3, o3) && OnlyRoots(o3.role) && |o3.role| == 1 && o3.gone == 1
    requires k3.mm.bytes == k0.mm.bytes + 3 * PAGE_SIZE
    ensures o3.twice == 3
  {
    assert Tables(o0.role) == o0.role.Keys;
    assert Tables(o3.role) == o3.role.Keys;
  }

  lemma {:induction false} LastRefused(k: Machine, o: Account, addr: u64)
    requires Inv(k, o) && k.current != 0 && k.mm.mgr.BitMgr?
    requires OnlyRoots(o.role) && |o.role| == 1 && o.twice == 3
    ensures Answer(k, Touch(addr)) == [Trap(MemoryFull)]
  {
    RunningRoot(k, o);
    NothingMapped(k.mm, o, k.current, MmuPath(VPage(addr)));
    Transparent(k, o, addr);
    WalkIsMapped(k, o, addr);
    GetTranslationKeeps(k, o, addr);
    FaultIff(k.mm, o, k.current, addr);
    var k1 := GetTranslation(k, addr).1;
    var o', d := HandleFaultKeeps(k1, o, addr);
  }

  lemma {:induction false} RunOfFour(k: Machine, a: Event, b: Event, c: Event, d: Event)
    ensures var k1 := Step(k, a); var k2 := Step(k1, b); var k3 := Step(k2, c);
      && Runs.Answers(k, [a, b, c, d]) == Answer(k, a) + (Answer(k1, b) + (Answer(k2, c) + Answer(k3, d)))
      && Run(k, [a, b, c]) == k3
  {
    hide Step, Answer;
    var k1, k2, k3 := Step(k, a), Step(Step(k, a), b), Step(Step(Step(k, a), b), c);
    assert [a, b, c, d][1..] == [b, c, d] && [b, c, d][1..] == [c, d] && [c, d][1..] == [d] && [d][1..] == [];
    assert [a, b, c][1..] == [b, c] && [b, c][1..] == [c] && [c][1..] == [];
    assert Runs.Answers(k3, [d]) == Answer(k3, d) by {
      assert Runs.Answers(Step(k3, d), []) == [];
    }
    assert Runs.Answers(k2, [c, d]) == Answer(k2, c) + Answer(k3, d);
    assert Runs.Answers(k1, [b, c, d]) == Answer(k1, b) + (Answer(k2, c) + Answer(k3, d));
    assert Run(k2, [c]) == Run(k3, []) == k3;
    assert Run(k1, [b, c]) == Run(k2, [c]);
  }
}
