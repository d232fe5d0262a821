/** What a run adds up to: the accesses it answers, the tables it makes, whether the kernel's final check
    passes, and how much memory is enough. */
module Tally {
  import opened Sv48
  import opened PageTable
  import opened Managers
  import opened Memory
  import opened Kernel
  import opened Runs
  import Room
  import Teardown
  import Tlb

  /* ----- accesses ----- */

  /** Process and address of each access of a run, in order. */
  ghost function Accesses(k: Machine, es: seq<Event>): seq<(nat, u64)>
    decreases |es|
  {
    if es == [] then []
    else
      (if es[0].Touch? && Enabled(k, es[0]) then [(k.current, es[0].addr)] else []) + Accesses(Step(k, es[0]), es[1..])
  }

  lemma {:induction false} AccessesAnswered(k: Machine, es: seq<Event>)
    ensures |Accesses(k, es)| == |Runs.Answers(k, es)|
    decreases |es|
  {
    hide Step, Access;
    if es == [] {
    } else {
      AccessesAnswered(Step(k, es[0]), es[1..]);
    }
  }

  lemma {:induction false} RunAppend(k: Machine, a: seq<Event>, b: seq<Event>)
    ensures Run(k, a + b) == Run(Run(k, a), b)
    ensures Runs.Answers(k, a + b) == Runs.Answers(k, a) + Runs.Answers(Run(k, a), b)
    ensures Accesses(k, a + b) == Accesses(k, a) + Accesses(Run(k, a), b)
    decreases |a|
  {
    hide Step, Answer, Enabled;
    if a == [] {
      assert a + b == b;
    } else {
      assert (a + b)[0] == a[0] && (a + b)[1..] == a[1..] + b;
      RunAppend(Step(k, a[0]), a[1..], b);
    }
  }

  lemma {:induction false} RunOne(k: Machine, e: Event)
    ensures Run(k, [e]) == Step(k, e) && Runs.Answers(k, [e]) == Answer(k, e)
    ensures Accesses(k, [e]) == if e.Touch? && Enabled(k, e) then [(k.current, e.addr)] else []
  {
    hide Step, Answer, Enabled;
    assert [e][1..] == [];
    assert Run(Step(k, e), []) == Step(k, e) && Runs.Answers(Step(k, e), []) == [] && Accesses(Step(k, e), []) == [];
  }

  /* ----- tables ----- */

  /** The frames that are some process's table. */
  ghost function TableFrames(s: Memory.State): set<nat> {
    set f | f in s.mem && exists p, path :: TableAt(s, p, path) == Some(f)
  }

  lemma {:induction false} TableFramesAre(s: Memory.State, o: Account)
    requires Sound(s, o)
    ensures TableFrames(s) == Tables(o.role)
  {
    forall f
      ensures f in TableFrames(s) <==> f in Tables(o.role)
    {
      if f in Tables(o.role) {
        RoleFrameAt(s, o, f);
        assert FrameOk(s.mem, s.roots, o.role, f);
        assert TableAt(s, o.role[f].pid, o.role[f].path) == Some(f);
      }
      if p, path :| TableAt(s, p, path) == Some(f) {
        RootRole(s, o, p);
        DescendRole(s.mem, s.roots, o.role, s.roots[p], path);
      }
    }
  }

  /** The tables an event makes. */
  ghost function Created(k: Machine, e: Event): set<nat> {
    TableFrames(Step(k, e).mm) - TableFrames(k.mm)
  }

  /** How many tables a run makes. */
  ghost function TablesMade(k: Machine, es: seq<Event>): nat
    decreases |es|
  {
    if es == [] then 0 else |Created(k, es[0])| + TablesMade(Step(k, es[0]), es[1..])
  }

  /** Tables among more roles: the difference counts what was added. */
  lemma {:induction false} TablesAdded(role: Roles, role': Roles)
    requires Extends(role, role')
    ensures Tables(role) <= Tables(role') && |Tables(role') - Tables(role)| == |Tables(role')| - |Tables(role)|
    ensures |role'| <= |role| + 1 + |Tables(role') - Tables(role)|
  {
    var added := role'.Keys - role.Keys;
    NewTables(role, role');
    Teardown.DifferenceCard(Tables(role), Tables(role'));
    Teardown.DifferenceCard(role.Keys, role'.Keys);
    Teardown.DifferenceCard(Tables(role') - Tables(role), added);
    assert |role| == |role.Keys| && |role'| == |role'.Keys|;
  }

  lemma NewTables(role: Roles, role': Roles)
    requires Extends(role, role')
    ensures Tables(role) <= Tables(role') && role.Keys <= role'.Keys
    ensures var made, added := Tables(role') - Tables(role), role'.Keys - role.Keys;
      made <= added && |added - made| <= 1
  {
    AtMostOne(role'.Keys - role.Keys - (Tables(role') - Tables(role)));
  }

  lemma AtMostOne(s: set<nat>)
    requires forall f, g :: f in s && g in s ==> f == g
    ensures |s| <= 1
  {
    if f :| f in s {
      assert s == {f};
    }
  }

  lemma {:induction false} TouchMakes(k: Machine, o: Account, addr: u64)
    requires Inv(k, o) && Enabled(k, Touch(addr))
    ensures Step(k, Touch(addr)).mm.bytes == k.mm.bytes + PAGE_SIZE * |Created(k, Touch(addr))|
  {
    hide Access;
    var o' := AccessKeeps(k, o, addr);
    TableFramesAre(k.mm, o);
    TableFramesAre(Step(k, Touch(addr)).mm, o');
    TablesAdded(o.role, o'.role);
  }

  lemma {:induction false} InterruptMakes(k: Machine, o: Account, i: Interrupt)
    requires Inv(k, o) && (i.SyscallExit? ==> k.current != 0)
    ensures HandleInterrupt(k, i).mm.bytes == k.mm.bytes
    ensures TableFrames(HandleInterrupt(k, i).mm) <= TableFrames(k.mm)
  {
    InterruptKeeps(k, o, i);
    var o', k' := InterruptAccount(k, o, i), HandleInterrupt(k, i);
    hide HandleInterrupt;
    TableFramesAre(k.mm, o);
    TableFramesAre(k'.mm, o');
  }

  lemma {:induction false} StepBytes(k: Machine, o: Account, e: Event)
    requires Inv(k, o)
    ensures Step(k, e).mm.bytes == k.mm.bytes + PAGE_SIZE * |Created(k, e)|
    ensures Answer(k, e) == [] ==> Created(k, e) == {}
  {
    hide HandleInterrupt, Access, Inv, TableFrames;
    match e {
      case Touch(addr) =>
        if Enabled(k, e) {
          TouchMakes(k, o, addr);
        }
      case Tick =>
        InterruptMakes(k, o, Timer);
      case Leave =>
        if Enabled(k, e) {
          InterruptMakes(k, o, SyscallExit);
        }
    }
  }

  /** Over every run the byte count grows by one page for each table made. */
  lemma {:induction false} BytesOverRuns(k: Machine, o: Account, es: seq<Event>)
    requires Inv(k, o)
    ensures Run(k, es).mm.bytes == k.mm.bytes + PAGE_SIZE * TablesMade(k, es)
    ensures Runs.Answers(k, es) == [] ==> TablesMade(k, es) == 0
    decreases |es|
  {
    hide Step, Answer, Inv, Created;
    if es == [] {
    } else {
      StepBytes(k, o, es[0]);
      var o1 := StepKeeps(k, o, es[0]);
      BytesOverRuns(Step(k, es[0]), o1, es[1..]);
    }
  }

  lemma {:induction false} BootBytes(s: Memory.State, o: Account)
    requires Sound(s, o) && OnlyRoots(o.role) && o.twice == 0 && o.gone == 0
    ensures s.bytes == PAGE_SIZE * |o.role|
  {
    assert Tables(o.role) == o.role.Keys;
  }

  /** From boot on it is 4096 times the tables ever made: a root for each process, and those of the run. */
  lemma {:induction false} BytesFromBoot(cfg: Config, s: Memory.State, pids: seq<nat>, slots: seq<Tlb.Slot>,
          es: seq<Event>)
    requires FreshMemory(s) && Distinct(pids) && 0 !in pids && slots != [] && BootTables(s, pids).Done?
    ensures var k := FreshMachine(cfg, BootTables(s, pids).s, pids, slots);
      Run(k, es).mm.bytes == PAGE_SIZE * (|pids| + TablesMade(k, es))
  {
    var o := Boot(cfg, s, pids, slots);
    var k := FreshMachine(cfg, BootTables(s, pids).s, pids, slots);
    BootBytes(k.mm, o);
    BytesOverRuns(k, o, es);
  }

  /* ----- the final check ----- */

  /** Distinct processes have distinct roots. */
  lemma {:induction false} RootsCard(ps: set<nat>, roots: map<nat, nat>, role: Roles)
    requires ps <= roots.Keys
    requires forall p :: p in roots ==> roots[p] in role && role[roots[p]] == Inner(p, [], 0)
    ensures |set p | p in ps :: roots[p]| == |ps|
  {
    var frames := set p | p in ps :: roots[p];
    if ps == {} {
      assert frames == {};
    } else {
      var p :| p in ps;
      RootsCard(ps - {p}, roots, role);
      var others := set q | q in ps - {p} :: roots[q];
      assert roots[p] !in others;
      assert frames == others + {roots[p]};
    }
  }

  /** A process that has a page has a table besides its root, so more tables are counted than processes. */
  lemma {:induction false} MappedHasInner(k: Machine, o: Account, p: nat, w: seq<Index>)
    requires Inv(k, o) && |w| == 4 && Mapped(k.mm, p, w).Some?
    ensures PAGE_SIZE * Population(k, o) < k.mm.bytes
  {
    var s := k.mm;
    RootRole(s, o, p);
    WalkByDescend(s.mem, s.roots, o.role, s.roots[p], w);
    DescendRole(s.mem, s.roots, o.role, s.roots[p], w[..3]);
    var t := Descend(s.mem, s.roots[p], w[..3]).value;
    var frames := set q | q in s.roots.Keys :: s.roots[q];
    RootsCard(s.roots.Keys, s.roots, o.role);
    assert |s.roots| == |s.roots.Keys| && t !in frames;
    Teardown.SubsetCard(frames + {t}, Tables(o.role));
  }

  lemma {:induction false} AnsweredStep(k: Machine, o: Account, e: Event)
    requires Inv(k, o) && Answer(k, e) != [] && NoTrap(Answer(k, e))
    ensures PAGE_SIZE * Population(k, o) < Step(k, e).mm.bytes
  {
    hide Access;
    var o' := AccessKeeps(k, o, e.addr);
    assert Answer(k, e)[0].Translated?;
    MappedHasInner(Step(k, e), o', k.current, MmuPath(VPage(e.addr)));
    var o1 := StepKeeps(k, o, e);
    SamePopulation(k, o, o', e.addr);
  }

  lemma {:induction false} SamePopulation(k: Machine, o: Account, o': Account, addr: u64)
    requires Inv(k, o) && Enabled(k, Touch(addr)) && o'.gone == o.gone
    ensures Population(Step(k, Touch(addr)), o') == Population(k, o)
  {
    var o1 := AccessKeeps(k, o, addr);
  }

  /** A run that answers an access, and traps none, makes an inner table. */
  lemma {:induction false} AnsweredMakes(k: Machine, o: Account, es: seq<Event>)
    requires Inv(k, o) && Runs.Answers(k, es) != [] && NoTrap(Runs.Answers(k, es))
    ensures PAGE_SIZE * Population(k, o) < Run(k, es).mm.bytes
    decreases |es|
  {
    hide Step, Answer, Inv, Population;
    var k1, rest := Step(k, es[0]), es[1..];
    var o1 := StepKeeps(k, o, es[0]);
    NoTrapParts(Answer(k, es[0]), Runs.Answers(k1, rest));
    if Answer(k, es[0]) == [] {
      AnsweredMakes(k1, o1, rest);
    } else {
      AnsweredStep(k, o, es[0]);
      BytesOverRuns(k1, o1, rest);
    }
  }

  /** The number of tables ever made stays far below the range of the page counter. */
  lemma {:induction false} FewTables(k: Machine, o: Account, es: seq<Event>)
    requires Inv(k, o) && o.twice == 0 && o.gone == 0 && |k.mm.roots| <= MAX_PAGES
    ensures TablesMade(k, es) < TWO_64
  {
    hide Inv;
    BytesOverRuns(k, o, es);
    var o' := RunKeeps(k, o, es);
    TablesNow(Run(k, es), o');
  }

  lemma TablesNow(k: Machine, o: Account)
    requires Inv(k, o)
    ensures k.mm.bytes <= PAGE_SIZE * (MAX_PAGES + o.twice + o.gone)
  {
    Teardown.RolesFit(k.mm, o);
  }

  /** What the check sees once everything is returned. */
  lemma {:induction false} CheckOf(s: Memory.State, n: nat, made: nat)
    requires AllReturned(s, n) && s.bytes == PAGE_SIZE * (n + made) && made < TWO_64
    ensures Used(s.mgr) == 0 <==> s.mgr.HoleMgr? || made == 0
  {
    assert s.bytes / PAGE_SIZE == n + made;
    assert n - s.bytes / PAGE_SIZE + made == 0;
  }

  lemma {:induction false} EndBytes(k: Machine, o: Account)
    requires Inv(k, o)
    ensures Distinct(Remaining(k)) && forall p :: p in Remaining(k) ==> p in k.mm.roots
    ensures var s := Teardown.TerminateAll(k.mm, Remaining(k));
      s.bytes == k.mm.bytes && s.mgr.HoleMgr? == k.mm.mgr.HoleMgr?
  {
    RemainingIsLive(k, o);
    var o' := Teardown.TerminateAllEmpties(k.mm, o, Remaining(k));
  }

  /** The kernel's final check after a run from boot passes: exactly when the manager is the hole list or
      the run made no table. Without a trap, that is a run that answered no access. */
  lemma {:induction false} ReleasedCheckIff(cfg: Config, s: Memory.State, pids: seq<nat>, slots: seq<Tlb.Slot>,
          es: seq<Event>)
    requires FreshMemory(s) && Distinct(pids) && 0 !in pids && slots != [] && BootTables(s, pids).Done?
    ensures var k0 := FreshMachine(cfg, BootTables(s, pids).s, pids, slots); var k := Run(k0, es);
      && Distinct(Remaining(k)) && (forall p :: p in Remaining(k) ==> p in k.mm.roots)
      && var m := Teardown.TerminateAll(k.mm, Remaining(k)).mgr;
      && (Used(m) == 0 <==> m.HoleMgr? || TablesMade(k0, es) == 0)
      && (NoTrap(Runs.Answers(k0, es)) ==> (Used(m) == 0 <==> m.HoleMgr? || Runs.Answers(k0, es) == []))
  {
    ConservationOverRuns(cfg, s, pids, slots, es);
    var k0 := FreshMachine(cfg, BootTables(s, pids).s, pids, slots);
    var o := Boot(cfg, s, pids, slots);
    hide Inv, FreshMemory, AllReturned, BootTables;
    RemainingIsLive(k0, o);
    assert Remaining(k0) == pids;
    RootsFit(k0, o);
    BytesFromBoot(cfg, s, pids, slots, es);
    BytesOverRuns(k0, o, es);
    FewTables(k0, o, es);
    if NoTrap(Runs.Answers(k0, es)) && Runs.Answers(k0, es) != [] {
      AnsweredMakes(k0, o, es);
    }
    var o' := RunKeeps(k0, o, es);
    EndBytes(Run(k0, es), o');
    CheckOf(Teardown.TerminateAll(Run(k0, es).mm, Remaining(Run(k0, es))), |pids|, TablesMade(k0, es));
  }

  lemma RootsFit(k: Machine, o: Account)
    requires Inv(k, o) && |o.role| == |k.mm.roots|
    ensures |k.mm.roots| <= MAX_PAGES
  {
    Teardown.RolesFit(k.mm, o);
  }

  /** A lone process that maps nothing is dispatched and touches a page. */
  lemma {:induction false} FirstTouch(k: Machine, o: Account, p: nat, a: u64)
    requires Inv(k, o) && k.current == 0 && k.ready == [p] && p != 0
    requires OnlyRoots(o.role) && |o.role| == 1 && o.twice == 0 && 5 <= Pages(k.mm.mgr)
    ensures |Runs.Answers(k, [Tick, Touch(a)])| == 1 && NoTrap(Runs.Answers(k, [Tick, Touch(a)]))
  {
    hide Inv, Step, Answer, Run, Runs.Answers, NoTrap;
    FirstDispatch(k, o, p);
    FirstAnswered(Step(k, Tick), o, a);
    assert [Tick] + [Touch(a)] == [Tick, Touch(a)];
    RunAppend(k, [Tick], [Touch(a)]);
    RunOne(k, Tick);
    RunOne(Step(k, Tick), Touch(a));
    assert [] + Answer(Step(k, Tick), Touch(a)) == Answer(Step(k, Tick), Touch(a));
  }

  lemma {:induction false} FirstDispatch(k: Machine, o: Account, p: nat)
    requires Inv(k, o) && k.current == 0 && k.ready == [p] && p != 0
    ensures Inv(Step(k, Tick), o) && Step(k, Tick).current == p && Step(k, Tick).mm == k.mm && Answer(k, Tick) == []
  {
    hide Sound, TlbCoherent;
    InterruptKeeps(k, o, Timer);
  }

  lemma {:induction false} FirstAnswered(k: Machine, o: Account, a: u64)
    requires Inv(k, o) && k.current != 0 && OnlyRoots(o.role) && |o.role| == 1 && o.twice == 0
    requires 5 <= Pages(k.mm.mgr)
    ensures |Answer(k, Touch(a))| == 1 && NoTrap(Answer(k, Touch(a)))
  {
    hide Access;
    RunningRoot(k, o);
    var o2 := Room.FirstAccess(k, o, a);
  }

  /** The page manager stays of its kind and size. */
  lemma {:induction false} KindOverRuns(k: Machine, o: Account, es: seq<Event>)
    requires Inv(k, o)
    ensures Room.SameSize(k.mm.mgr, Run(k, es).mm.mgr)
    decreases |es|
  {
    hide Step, Inv;
    if es == [] {
    } else {
      KindOfStep(k, o, es[0]);
      var o1 := StepKeeps(k, o, es[0]);
      KindOverRuns(Step(k, es[0]), o1, es[1..]);
    }
  }

  lemma {:induction false} KindOfStep(k: Machine, o: Account, e: Event)
    requires Inv(k, o)
    ensures Room.SameSize(k.mm.mgr, Step(k, e).mm.mgr)
  {
    hide HandleInterrupt, Access, Inv;
    match e {
      case Touch(addr) =>
        if Enabled(k, e) {
          EnabledCurrent(k, o, e);
          AccessIsFault(k, o, addr);
          Room.FaultSize(k.mm, k.current, addr);
        }
      case Tick =>
        InterruptKeeps(k, o, Timer);
      case Leave =>
        if Enabled(k, e) {
          InterruptKeeps(k, o, SyscallExit);
          TerminateSize(k, o);
        }
    }
  }

  lemma EnabledCurrent(k: Machine, o: Account, e: Event)
    requires Inv(k, o) && Enabled(k, e) && !e.Tick?
    ensures k.current != 0
  {
  }

  lemma {:induction false} TerminateSize(k: Machine, o: Account)
    requires Inv(k, o) && k.current in k.mm.roots
    ensures Room.SameSize(k.mm.mgr, Teardown.Terminate(k.mm, k.current).mgr)
  {
    Teardown.TerminateKeeps(k.mm, o, k.current);
    Teardown.ReleasedBoth(k.mm, o, k.current);
  }

  /** One access is enough for the check to fail: the bitmap, one process, one touch. */
  lemma {:induction false} OneAccessFails(cfg: Config, s: Memory.State, p: nat, slots: seq<Tlb.Slot>, a: u64)
    requires FreshMemory(s) && s.mgr.BitMgr? && 5 <= Pages(s.mgr) && p != 0 && slots != []
    requires BootTables(s, [p]).Done?
    ensures var k0 := FreshMachine(cfg, BootTables(s, [p]).s, [p], slots); var k := Run(k0, [Tick, Touch(a)]);
      && NoTrap(Runs.Answers(k0, [Tick, Touch(a)])) && Distinct(Remaining(k))
      && (forall q :: q in Remaining(k) ==> q in k.mm.roots)
      && Used(Teardown.TerminateAll(k.mm, Remaining(k)).mgr) != 0
  {
    var k0 := FreshMachine(cfg, BootTables(s, [p]).s, [p], slots);
    var o := Boot(cfg, s, [p], slots);
    Room.BootSize(s, [p]);
    FirstTouch(k0, o, p, a);
    var es := [Tick, Touch(a)];
    hide Inv, FreshMemory, BootTables, Run, Runs.Answers;
    ReleasedCheckIff(cfg, s, [p], slots, es);
    var o' := RunKeeps(k0, o, es);
    EndBytes(Run(k0, es), o');
    KindOverRuns(k0, o, es);
  }

  /* ----- how much memory is enough ----- */

  lemma {:induction false} MissingBound(mem: Ram, t: nat, idx: seq<Index>)
    ensures Room.Missing(mem, t, idx) <= if idx == [] then 0 else |idx| - 1
    decreases |idx|
  {
    if |idx| <= 1 {
    } else {
      MissingBound(mem, At(mem, t)[idx[0]].ppn, idx[1..]);
    }
  }

  /** Few enough releases of free pages for the counters not to matter. */
  ghost predicate FewReleases(k: Machine, o: Account) {
    o.twice <= o.gone * MAX_PAGES && Population(k, o) <= MAX_PAGES
  }

  /** With the hole list and four frames left an access is answered, and takes four at most. */
  lemma {:induction false} TouchFits(k: Machine, o: Account, addr: u64) returns (o': Account)
    requires Inv(k, o) && Enabled(k, Touch(addr)) && FewReleases(k, o)
    requires k.mm.mgr.HoleMgr? && |o.role| + 4 <= Pages(k.mm.mgr)
    ensures var (t, k') := Access(k, addr);
      && t.Translated? && Inv(k', o') && |o'.role| <= |o.role| + 4 && o'.twice == o.twice && o'.gone == o.gone
      && Room.SameSize(k.mm.mgr, k'.mm.mgr)
  {
    o' := AccessKeeps(k, o, addr);
    var path := MmuPath(VPage(addr));
    Room.FaultIff(k.mm, o, k.current, addr);
    MissingBound(k.mm.mem, k.mm.roots[k.current], path);
    Room.FaultSize(k.mm, k.current, addr);
    TablesAdded(o.role, o'.role);
    AccessIsFault(k, o, addr);
  }

  /** Memory after an access: as it was when the page is mapped, else as the fault leaves it. */
  lemma {:induction false} AccessIsFault(k: Machine, o: Account, addr: u64)
    requires Inv(k, o) && k.current != 0
    ensures var (t, k') := Access(k, addr); var r := Fault(k.mm, k.current, addr);
      if Mapped(k.mm, k.current, MmuPath(VPage(addr))).Some? then t.Translated? && k'.mm == k.mm
      else k'.mm == r.s && (r.Done? <==> t.Translated?)
  {
    RunningRoot(k, o);
    Transparent(k, o, addr);
    WalkIsMapped(k, o, addr);
    GetTranslationKeeps(k, o, addr);
    var o' := AccessKeeps(k, o, addr);
    var (t, k1) := GetTranslation(k, addr);
    if t == PageFault {
      var o2, d := HandleFaultKeeps(k1, o, addr);
      var (e, k2) := HandleFault(k1, addr);
      if e.None? {
        GetTranslationKeeps(k2, o2, addr);
      }
    }
  }

  /** An interrupt takes no frame. */
  lemma {:induction false} InterruptFits(k: Machine, o: Account, i: Interrupt)
    requires Inv(k, o) && FewReleases(k, o) && (i.SyscallExit? ==> k.current != 0)
    ensures k.current in k.mm.roots || k.current == 0
    ensures var k', o' := HandleInterrupt(k, i), InterruptAccount(k, o, i);
      && Inv(k', o') && FewReleases(k', o') && |o'.role| <= |o.role| && Room.SameSize(k.mm.mgr, k'.mm.mgr)
  {
    InterruptKeeps(k, o, i);
    if i.SyscallExit? {
      TerminateSize(k, o);
      Teardown.TerminateKeeps(k.mm, o, k.current);
      Teardown.TerminateKind(k.mm, k.current);
      Teardown.RolesFit(k.mm, o);
      Teardown.SubsetCard(Teardown.Without(o.role, k.current).Keys, o.role.Keys);
    }
  }

  /** An event answers its access, if there is one, and takes four frames for it at most. */
  lemma {:induction false} StepFits(k: Machine, o: Account, e: Event) returns (o': Account)
    requires Inv(k, o) && FewReleases(k, o) && k.mm.mgr.HoleMgr?
    requires |o.role| + 4 * |Answer(k, e)| <= Pages(k.mm.mgr)
    ensures Inv(Step(k, e), o') && FewReleases(Step(k, e), o') && NoTrap(Answer(k, e))
    ensures |o'.role| <= |o.role| + 4 * |Answer(k, e)| && Room.SameSize(k.mm.mgr, Step(k, e).mm.mgr)
  {
    hide HandleInterrupt, Access, Inv, InterruptAccount;
    o' := o;
    match e {
      case Touch(addr) =>
        if Enabled(k, e) {
          assert Answer(k, e) == [Access(k, addr).0];
          o' := TouchFits(k, o, addr);
          EnabledCurrent(k, o, e);
          SamePopulation(k, o, o', addr);
        }
      case Tick =>
        if Enabled(k, e) {
          InterruptFits(k, o, Timer);
          o' := InterruptAccount(k, o, Timer);
        }
      case Leave =>
        if Enabled(k, e) {
          InterruptFits(k, o, SyscallExit);
          o' := InterruptAccount(k, o, SyscallExit);
        }
    }
  }

  /** With the hole list, four frames for each access besides those in use are enough for a whole run. */
  lemma {:induction false} EnoughMemory(k: Machine, o: Account, es: seq<Event>)
    requires Inv(k, o) && FewReleases(k, o) && k.mm.mgr.HoleMgr?
    requires |o.role| + 4 * |Accesses(k, es)| <= Pages(k.mm.mgr)
    ensures NoTrap(Runs.Answers(k, es))
    decreases |es|
  {
    hide Step, Answer, Inv, FewReleases;
    if es == [] {
    } else {
      var k1, rest := Step(k, es[0]), es[1..];
      AccessesAnswered(k, es);
      AccessesAnswered(k1, rest);
      var o1 := StepFits(k, o, es[0]);
      EnoughMemory(k1, o1, rest);
      NoTrapParts(Answer(k, es[0]), Runs.Answers(k1, rest));
    }
  }
}
