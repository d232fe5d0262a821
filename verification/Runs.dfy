/** Whole runs: boot, any sequence of accesses and interrupts, and the end of the kernel. */
module Runs {
  import opened Sv48
  import opened PageTable
  import opened Managers
  import opened Memory
  import opened Kernel
  import Teardown
  import Tlb

  /* ----- boot ----- */

  /** A root table for each process, in order; none of them is running yet. */
  ghost function BootTables(s: Memory.State, pids: seq<nat>): Outcome
    decreases |pids|
  {
    if pids == [] then Done(s)
    else
      match AllocatePageTable(s, 0, pids[0])
      case Failed(s', e) => Failed(s', e)
      case Done(s') => BootTables(s', pids[1..])
  }

  function FreshTlb(slots: seq<Tlb.Slot>): Tlb.State {
    Tlb.State(slots, 0, 0, 0, Tlb.Stats(0, 0, 0, 0, 0, 0))
  }

  function FreshMachine(cfg: Config, mm: Memory.State, pids: seq<nat>, slots: seq<Tlb.Slot>): Machine {
    Machine(cfg, mm, pids, 0, 0, 0, FreshTlb(slots), 0, 0)
  }

  /** Roles in which every frame is a root. */
  ghost predicate OnlyRoots(role: Roles) {
    forall f :: f in role ==> IsRoot(role[f])
  }

  ghost predicate BootResult(s: Memory.State, o: Account, pids: seq<nat>, r: Outcome, o': Account) {
    && Sound(r.s, o') && OnlyRoots(o'.role) && o'.twice == o.twice && o'.gone == o.gone
    && (r.Done? ==> (forall p :: p in r.s.roots <==> p in s.roots || p in pids) && |o'.role| == |o.role| + |pids|)
  }

  lemma BootOneMore(s: Memory.State, o: Account, s1: Memory.State, o1: Account, pids: seq<nat>, r: Outcome, o': Account)
    requires pids != [] && BootResult(s1, o1, pids[1..], r, o')
    requires s1.roots.Keys == s.roots.Keys + {pids[0]} && |o1.role| == |o.role| + 1
    requires o1.twice == o.twice && o1.gone == o.gone
    ensures BootResult(s, o, pids, r, o')
  {
    assert pids == [pids[0]] + pids[1..];
  }

  lemma RestDistinct(pids: seq<nat>)
    requires Distinct(pids) && pids != []
    ensures Distinct(pids[1..]) && pids[0] in pids && forall p :: p in pids[1..] ==> p in pids && p != pids[0]
  {
    assert pids == [pids[0]] + pids[1..];
  }

  lemma OneMoreRoot(role: Roles, f: nat, p: nat)
    requires OnlyRoots(role) && f !in role
    ensures OnlyRoots(role[f := Inner(p, [], 0)]) && |role[f := Inner(p, [], 0)]| == |role| + 1
  {
    RoleAdded(role, f, Inner(p, [], 0));
  }

  /** The root of the first process, and what is then left to boot. */
  lemma {:induction false} BootFirst(s: Memory.State, o: Account, pids: seq<nat>) returns (o1: Account)
    requires Sound(s, o) && OnlyRoots(o.role) && Distinct(pids) && 0 !in pids && pids != []
    requires forall p :: p in pids ==> p !in s.roots
    ensures var r := AllocatePageTable(s, 0, pids[0]);
      && Sound(r.s, o1) && OnlyRoots(o1.role) && o1.twice == o.twice && o1.gone == o.gone
      && (r.Done? ==>
            && r.s.roots.Keys == s.roots.Keys + {pids[0]} && |o1.role| == |o.role| + 1
            && Distinct(pids[1..]) && 0 !in pids[1..] && forall p :: p in pids[1..] ==> p !in r.s.roots)
  {
    hide Sound, AllocatePageTable, OnlyRoots, Distinct;
    var p := pids[0];
    RestDistinct(pids);
    o1 := RootKeeps(s, o, p);
    var r := AllocatePageTable(s, 0, p);
    if r.Done? {
      OneMoreRoot(o.role, r.s.roots[p], p);
    }
  }

  lemma {:induction false} BootTablesKeeps(s: Memory.State, o: Account, pids: seq<nat>) returns (o': Account)
    requires Sound(s, o) && OnlyRoots(o.role) && Distinct(pids) && 0 !in pids
    requires forall p :: p in pids ==> p !in s.roots
    ensures BootResult(s, o, pids, BootTables(s, pids), o')
    decreases |pids|
  {
    hide Sound, AllocatePageTable, OnlyRoots, Distinct;
    if pids == [] {
      o' := o;
    } else {
      var o1 := BootFirst(s, o, pids);
      o' := o1;
      var r := AllocatePageTable(s, 0, pids[0]);
      if r.Done? {
        o' := BootTablesKeeps(r.s, o1, pids[1..]);
        BootOneMore(s, o, r.s, o1, pids, BootTables(s, pids), o');
      }
    }
  }

  /** After a successful boot the invariant holds, no page is mapped and every frame in use is a root. */
  lemma {:induction false} Boot(cfg: Config, s: Memory.State, pids: seq<nat>, slots: seq<Tlb.Slot>) returns (o: Account)
    requires FreshMemory(s) && Distinct(pids) && 0 !in pids && slots != []
    requires BootTables(s, pids).Done?
    ensures Inv(FreshMachine(cfg, BootTables(s, pids).s, pids, slots), o)
    ensures OnlyRoots(o.role) && |o.role| == |pids| && o.twice == 0 && o.gone == 0
    ensures forall p, w: seq<Index> :: |w| == 4 ==> Mapped(BootTables(s, pids).s, p, w) == None
  {
    FreshSound(s);
    o := BootTablesKeeps(s, Account(map[], 0, 0), pids);
    var mm := BootTables(s, pids).s;
    forall p, w: seq<Index> | |w| == 4
      ensures Mapped(mm, p, w) == None
    {
      if p in mm.roots {
        RootRole(mm, o, p);
        WalkRole(mm.mem, mm.roots, o.role, mm.roots[p], w);
      }
    }
  }

  /** The frames in use are the first j of RAM. */
  ghost predicate FirstFrames(role: Roles, j: nat) {
    forall f :: f in role <==> BASE_FRAME <= f < BASE_FRAME + j
  }

  /** The lowest frame not in use is the next. */
  lemma NextFrame(role: Roles, m: Mgr, f: nat, r: Role, j: nat)
    requires FirstFrames(role, j) && RolesAreAllocated(m, role) && InRange(m, f) && f !in role
    requires forall g :: BASE_FRAME <= g < f ==> Allocated(m, g)
    ensures f == BASE_FRAME + j && FirstFrames(role[f := r], j + 1)
  {
    assert f >= BASE_FRAME + j;
    assert !Allocated(m, BASE_FRAME + j);
    assert f == BASE_FRAME + j;
  }

  lemma {:induction false} RootEntered(s: Memory.State, o: Account, p: nat)
    requires Sound(s, o) && p !in s.roots && AllocatePageTable(s, 0, p).Done?
    ensures var a := Allocate(s.mgr, 1).0;
      && a.Some? && InRange(s.mgr, a.value / PAGE_SIZE) && a.value / PAGE_SIZE !in o.role
      && (forall g :: BASE_FRAME <= g < a.value / PAGE_SIZE ==> Allocated(s.mgr, g))
      && AllocatePageTable(s, 0, p).s.roots == s.roots[p := a.value / PAGE_SIZE]
  {
    SoundIsShaped(s, o);
    RootUpdates(s, o.role, 0, p);
    AllocateOne(s.mgr);
    hide Sound, Shaped, Allocate, AllocatePageTable, Allocated, Mapped, Entries;
  }

  lemma {:induction false} RootIsNext(s: Memory.State, o: Account, p: nat, j: nat) returns (o': Account)
    requires Sound(s, o) && FirstFrames(o.role, j) && p != 0 && p !in s.roots
    ensures var r := AllocatePageTable(s, 0, p);
      && Sound(r.s, o')
      && (r.Done? ==> FirstFrames(o'.role, j + 1) && r.s.roots == s.roots[p := BASE_FRAME + j])
  {
    o' := RootKeeps(s, o, p);
    if AllocatePageTable(s, 0, p).Done? {
      RootEntered(s, o, p);
      NextFrame(o.role, s.mgr, Allocate(s.mgr, 1).0.value / PAGE_SIZE, Inner(p, [], 0), j);
    }
    hide Sound, Allocate, AllocatePageTable, FirstFrames, Allocated, RolesAreAllocated;
  }

  /** The roots are the frames that come next, in the order of the processes. */
  lemma {:induction false} RootsInOrder(s: Memory.State, o: Account, pids: seq<nat>, j: nat)
    requires Sound(s, o) && FirstFrames(o.role, j) && Distinct(pids) && 0 !in pids
    requires (forall p :: p in pids ==> p !in s.roots) && BootTables(s, pids).Done?
    ensures var roots := BootTables(s, pids).s.roots;
      && (forall i :: 0 <= i < |pids| ==> pids[i] in roots && roots[pids[i]] == BASE_FRAME + j + i)
      && (forall p :: p in s.roots ==> p in roots && roots[p] == s.roots[p])
    decreases |pids|
  {
    hide Sound, AllocatePageTable, Distinct, FirstFrames;
    if pids == [] {
    } else {
      RestDistinct(pids);
      var o1 := RootIsNext(s, o, pids[0], j);
      var s1 := AllocatePageTable(s, 0, pids[0]).s;
      RootsInOrder(s1, o1, pids[1..], j + 1);
      assert forall i :: 0 < i < |pids| ==> pids[i] == pids[1..][i - 1];
    }
  }

  /** At boot process i of the list gets frame i of RAM as its root. */
  lemma {:induction false} BootInOrder(s: Memory.State, pids: seq<nat>)
    requires FreshMemory(s) && Distinct(pids) && 0 !in pids && BootTables(s, pids).Done?
    ensures var roots := BootTables(s, pids).s.roots;
      forall i :: 0 <= i < |pids| ==> pids[i] in roots && roots[pids[i]] == BASE_FRAME + i
  {
    FreshSound(s);
    RootsInOrder(s, Account(map[], 0, 0), pids, 0);
  }

  /* ----- runs ----- */

  datatype Event = Touch(addr: u64) | Tick | Leave

  /** Accesses and exits need a running process; a timer interrupt can always come. */
  ghost predicate Enabled(k: Machine, e: Event) {
    Tlb.Ok(k.tlb) && (e.Tick? || (k.current != 0 && k.current in k.mm.roots))
  }

  /** An event that cannot happen changes nothing. */
  ghost function Step(k: Machine, e: Event): Machine {
    if !Enabled(k, e) then k
    else
      match e
      case Touch(addr) => Access(k, addr).1
      case Tick => HandleInterrupt(k, Timer)
      case Leave => HandleInterrupt(k, SyscallExit)
  }

  ghost function Answer(k: Machine, e: Event): seq<Translation> {
    if e.Touch? && Enabled(k, e) then [Access(k, e.addr).0] else []
  }

  /** The machine after a sequence of events, in any interleaving. */
  ghost function Run(k: Machine, es: seq<Event>): Machine
    decreases |es|
  {
    if es == [] then k else Run(Step(k, es[0]), es[1..])
  }

  /** The translations the accesses of a run end in. */
  ghost function Answers(k: Machine, es: seq<Event>): seq<Translation>
    decreases |es|
  {
    if es == [] then [] else Answer(k, es[0]) + Answers(Step(k, es[0]), es[1..])
  }

  ghost predicate NoTrap(ts: seq<Translation>) {
    forall i :: 0 <= i < |ts| ==> ts[i].Translated?
  }

  /** Processes that have ended or are live. */
  ghost function Population(k: Machine, o: Account): nat {
    o.gone + |k.mm.roots|
  }

  /** A process that ends adds no more pages released twice than memory has. */
  predicate FewTwice(o: Account, o': Account) {
    o.gone <= o'.gone && o'.twice <= o.twice + (o'.gone - o.gone) * MAX_PAGES
  }

  lemma {:induction false} StepKeeps(k: Machine, o: Account, e: Event) returns (o': Account)
    requires Inv(k, o)
    ensures Inv(Step(k, e), o')
    ensures Tidy(o.role) && NoTrap(Answer(k, e)) ==> Tidy(o'.role)
    ensures Step(k, e).cfg == k.cfg && Population(Step(k, e), o') == Population(k, o) && FewTwice(o, o')
  {
    hide Sound, TlbCoherent, HandleInterrupt, Access, Teardown.Terminate;
    o' := o;
    match e {
      case Touch(addr) =>
        if Enabled(k, e) {
          o' := AccessKeeps(k, o, addr);
          assert Answer(k, e)[0] == Access(k, addr).0;
        }
      case Tick =>
        InterruptKeeps(k, o, Timer);
      case Leave =>
        if Enabled(k, e) {
          InterruptKeeps(k, o, SyscallExit);
          o' := InterruptAccount(k, o, SyscallExit);
          Teardown.TerminateKeeps(k.mm, o, k.current);
          Teardown.TerminateKind(k.mm, k.current);
          Teardown.RolesFit(k.mm, o);
          if Tidy(o.role) {
            Teardown.WithoutTidy(o.role, k.current);
          }
        }
    }
  }

  /** Every state of every run from a state that satisfies the invariant satisfies it; while memory
      has not run out, no frame is wasted. */
  lemma {:induction false} RunKeeps(k: Machine, o: Account, es: seq<Event>) returns (o': Account)
    requires Inv(k, o)
    ensures Inv(Run(k, es), o')
    ensures Tidy(o.role) && NoTrap(Answers(k, es)) ==> Tidy(o'.role)
    ensures Run(k, es).cfg == k.cfg && Population(Run(k, es), o') == Population(k, o) && FewTwice(o, o')
    decreases |es|
  {
    if es == [] {
      o' := o;
    } else {
      var o1 := StepKeeps(k, o, es[0]);
      o' := RunKeeps(Step(k, es[0]), o1, es[1..]);
      NoTrapParts(Answer(k, es[0]), Answers(Step(k, es[0]), es[1..]));
    }
  }

  lemma NoTrapParts(a: seq<Translation>, b: seq<Translation>)
    ensures NoTrap(a + b) <==> NoTrap(a) && NoTrap(b)
  {
    if NoTrap(a + b) {
      assert forall i :: 0 <= i < |a| ==> a[i] == (a + b)[i];
      assert forall i :: 0 <= i < |b| ==> b[i] == (a + b)[|a| + i];
    }
  }

  /* ----- isolation ----- */

  /** The table of process p at a path, if there is one. */
  ghost function TableAt(s: Memory.State, p: nat, path: seq<Index>): Option<nat> {
    if p in s.roots && |path| <= 3 then Descend(s.mem, s.roots[p], path) else None
  }

  ghost function PageAt(s: Memory.State, p: nat, path: seq<Index>): Option<nat> {
    if |path| == 4 then Mapped(s, p, path) else None
  }

  /** What process p keeps at a path: a table above the leaves, a page at a leaf. */
  ghost function FrameAt(s: Memory.State, p: nat, path: seq<Index>): Option<nat> {
    if |path| <= 3 then TableAt(s, p, path) else PageAt(s, p, path)
  }

  /** No frame serves twice: not two processes, not two paths, not as a table and as a page; and
      every frame in use is allocated. */
  ghost predicate Isolated(s: Memory.State) {
    && (forall p, v, q, w :: FrameAt(s, p, v).Some? && FrameAt(s, p, v) == FrameAt(s, q, w) ==> p == q && v == w)
    && (forall p, v :: FrameAt(s, p, v).Some? ==> Allocated(s.mgr, FrameAt(s, p, v).value))
  }

  /** Every allocated frame is some process's table or page. */
  ghost predicate NoLeak(s: Memory.State) {
    forall f: nat :: Allocated(s.mgr, f) ==> exists p, v :: FrameAt(s, p, v) == Some(f)
  }

  /** The role of the frame at a path names the process and the path. */
  lemma {:induction false} FrameAtRole(s: Memory.State, o: Account, p: nat, v: seq<Index>)
    requires Sound(s, o) && FrameAt(s, p, v).Some?
    ensures var f := FrameAt(s, p, v).value;
      f in o.role && !o.role[f].Loose? && o.role[f].pid == p && o.role[f].path == v
  {
    RootRole(s, o, p);
    assert [] + v == v;
    if |v| <= 3 {
      DescendRole(s.mem, s.roots, o.role, s.roots[p], v);
    } else {
      WalkRole(s.mem, s.roots, o.role, s.roots[p], v);
    }
  }

  lemma {:induction false} SoundIsIsolated(s: Memory.State, o: Account)
    requires Sound(s, o)
    ensures Isolated(s)
  {
    forall p, v, q, w | FrameAt(s, p, v).Some? && FrameAt(s, p, v) == FrameAt(s, q, w)
      ensures p == q && v == w
    {
      FrameAtRole(s, o, p, v);
      FrameAtRole(s, o, q, w);
    }
    forall p, v | FrameAt(s, p, v).Some?
      ensures Allocated(s.mgr, FrameAt(s, p, v).value)
    {
      FrameAtRole(s, o, p, v);
    }
  }

  /** The frame of a role is found at its path. */
  lemma {:induction false} RoleFrameAt(s: Memory.State, o: Account, f: nat)
    requires Sound(s, o) && f in o.role && !o.role[f].Loose?
    ensures FrameAt(s, o.role[f].pid, o.role[f].path) == Some(f)
  {
    var p, path := o.role[f].pid, o.role[f].path;
    assert FrameOk(s.mem, s.roots, o.role, f);
    RootRole(s, o, p);
    if o.role[f].Inner? {
      TableReached(s.mem, s.roots, o.role, s.roots[p], f);
      assert path[0..] == path;
    } else {
      WalkByDescend(s.mem, s.roots, o.role, s.roots[p], path);
      TableReached(s.mem, s.roots, o.role, s.roots[p], o.role[f].up);
      assert path[..3][0..] == path[..3];
    }
  }

  lemma {:induction false} TidyHasNoLeak(s: Memory.State, o: Account)
    requires Sound(s, o) && Tidy(o.role)
    ensures NoLeak(s)
  {
    forall f: nat | Allocated(s.mgr, f)
      ensures exists p, v :: FrameAt(s, p, v) == Some(f)
    {
      RoleFrameAt(s, o, f);
    }
  }

  /** Isolation over all runs from boot, and no leak while memory has not run out. */
  lemma {:induction false} IsolationOverRuns(cfg: Config, s: Memory.State, pids: seq<nat>, slots: seq<Tlb.Slot>,
          es: seq<Event>)
    requires FreshMemory(s) && Distinct(pids) && 0 !in pids && slots != []
    requires BootTables(s, pids).Done?
    ensures var k := FreshMachine(cfg, BootTables(s, pids).s, pids, slots);
      Isolated(Run(k, es).mm) && (NoTrap(Answers(k, es)) ==> NoLeak(Run(k, es).mm))
  {
    var o := Boot(cfg, s, pids, slots);
    var k := FreshMachine(cfg, BootTables(s, pids).s, pids, slots);
    var o' := RunKeeps(k, o, es);
    SoundIsIsolated(Run(k, es).mm, o');
    if NoTrap(Answers(k, es)) {
      TidyHasNoLeak(Run(k, es).mm, o');
    }
  }

  /* ----- the translation buffer makes no difference ----- */

  /** The machine with its buffer switched off and emptied. */
  function Plain(k: Machine): Machine {
    k.(cfg := k.cfg.(tlbOn := false), tlb := FreshTlb([Tlb.Slot(0, 0, 0, false)]))
  }

  lemma {:induction false} PlainInv(k: Machine, o: Account)
    requires Inv(k, o)
    ensures Inv(Plain(k), o)
  {
  }

  lemma {:induction false} PlainAccess(k: Machine, o: Account, addr: u64)
    requires Inv(k, o) && k.current != 0
    ensures Access(Plain(k), addr).0 == Access(k, addr).0
    ensures Access(Plain(k), addr).1 == Plain(Access(k, addr).1)
  {
    hide Sound;
    PlainInv(k, o);
    Transparent(k, o, addr);
    GetTranslationKeeps(k, o, addr);
    WalkIsMapped(k, o, addr);
    var (t, k1) := GetTranslation(k, addr);
    if t == PageFault {
      RunningRoot(k, o);
      var o', d := HandleFaultKeeps(k1, o, addr);
      var (e, k2) := HandleFault(k1, addr);
      if e.None? {
        Transparent(k2, o', addr);
        GetTranslationKeeps(k2, o', addr);
      }
    }
  }

  lemma {:induction false} PlainStep(k: Machine, o: Account, e: Event)
    requires Inv(k, o)
    ensures Answer(Plain(k), e) == Answer(k, e) && Step(Plain(k), e) == Plain(Step(k, e))
  {
    hide Access, Sound, TlbCoherent, Teardown.Terminate;
    match e {
      case Touch(addr) =>
        if Enabled(k, e) {
          hide HandleInterrupt;
          PlainAccess(k, o, addr);
        }
      case Tick =>
      case Leave =>
    }
  }

  /** Over every run, the machine with a buffer, tagged or flushed, answers every access as the
      machine without one does, and agrees with it on everything but the buffer. */
  lemma {:induction false} TransparentOverRuns(k: Machine, o: Account, es: seq<Event>)
    requires Inv(k, o)
    ensures Answers(Plain(k), es) == Answers(k, es)
    ensures Run(Plain(k), es) == Plain(Run(k, es))
    decreases |es|
  {
    if es == [] {
    } else {
      PlainStep(k, o, es[0]);
      var o' := StepKeeps(k, o, es[0]);
      TransparentOverRuns(Step(k, es[0]), o', es[1..]);
    }
  }

  /* ----- mappings and context ----- */

  /** What the live processes of k' map in k they map in k' too, and no process came to life. */
  ghost predicate Persists(k: Machine, k': Machine) {
    && (forall p {:trigger p in k'.mm.roots} :: p in k'.mm.roots ==> p in k.mm.roots)
    && (forall p, w: seq<Index> :: |w| == 4 && p in k'.mm.roots && Mapped(k.mm, p, w).Some? ==>
          Mapped(k'.mm, p, w) == Mapped(k.mm, p, w))
  }

  lemma {:induction false} StepPersists(k: Machine, o: Account, e: Event)
    requires Inv(k, o)
    ensures Persists(k, Step(k, e))
  {
    hide Sound, TlbCoherent, HandleInterrupt, Access, Teardown.Terminate;
    match e {
      case Touch(addr) =>
        if Enabled(k, e) {
          var o' := AccessKeeps(k, o, addr);
        }
      case Tick =>
        InterruptKeeps(k, o, Timer);
      case Leave =>
        if Enabled(k, e) {
          InterruptKeeps(k, o, SyscallExit);
          Teardown.TerminateKind(k.mm, k.current);
        }
    }
  }

  /** Over every run, a page once mapped stays in its frame for as long as its process lives. */
  lemma {:induction false} MappingsPersist(k: Machine, o: Account, es: seq<Event>)
    requires Inv(k, o)
    ensures Persists(k, Run(k, es))
    decreases |es|
  {
    hide Step, Inv;
    if es == [] {
    } else {
      StepPersists(k, o, es[0]);
      var o1 := StepKeeps(k, o, es[0]);
      MappingsPersist(Step(k, es[0]), o1, es[1..]);
    }
  }

  /** Accesses of a run that find their page not mapped. */
  ghost function Faulting(k: Machine, es: seq<Event>): nat
    decreases |es|
  {
    if es == [] then 0
    else
      (if es[0].Touch? && Enabled(k, es[0])
          && Mapped(k.mm, k.current, MmuPath(VPage(es[0].addr))) == None then 1 else 0)
      + Faulting(Step(k, es[0]), es[1..])
  }

  /** Events of a run after which another process runs. */
  ghost function Switching(k: Machine, es: seq<Event>): nat
    decreases |es|
  {
    if es == [] then 0
    else (if Step(k, es[0]).current != k.current then 1 else 0) + Switching(Step(k, es[0]), es[1..])
  }

  lemma {:induction false} StepCounts(k: Machine, o: Account, e: Event)
    requires Inv(k, o)
    ensures Step(k, e).faults == k.faults + Faulting(k, [e]) && Step(k, e).switches == k.switches + Switching(k, [e])
  {
    hide Sound, TlbCoherent, HandleInterrupt, Access, Teardown.Terminate;
    assert [e][1..] == [];
    match e {
      case Touch(addr) =>
        if Enabled(k, e) {
          var o' := AccessKeeps(k, o, addr);
        }
      case Tick =>
        InterruptKeeps(k, o, Timer);
      case Leave =>
        if Enabled(k, e) {
          InterruptKeeps(k, o, SyscallExit);
        }
    }
  }

  /** Over every run the kernel counts one page fault for each access to an unmapped page, and one
      context switch each time another process, or none, comes to run. */
  lemma {:induction false} StatisticsOverRuns(k: Machine, o: Account, es: seq<Event>)
    requires Inv(k, o)
    ensures Run(k, es).faults == k.faults + Faulting(k, es)
    ensures Run(k, es).switches == k.switches + Switching(k, es)
    decreases |es|
  {
    hide Step, Inv;
    if es == [] {
    } else {
      StepCounts(k, o, es[0]);
      assert [es[0]][1..] == [];
      var o1 := StepKeeps(k, o, es[0]);
      StatisticsOverRuns(Step(k, es[0]), o1, es[1..]);
    }
  }

  /** Kernel, processor, MMU and buffer agree on the running process; the queue and the running process
      are the live ones, each once. */
  ghost predicate InContext(k: Machine) {
    && k.cpu == k.current
    && (k.current != 0 ==> k.current in k.mm.roots && k.root == k.mm.roots[k.current] * PAGE_SIZE)
    && (k.cfg.tlbOn && k.cfg.asidOn ==> k.tlb.asid == k.current)
    && Distinct(Remaining(k)) && (forall p :: p in Remaining(k) <==> p in k.mm.roots)
  }

  /** So it is in every state of every run from boot. */
  lemma {:induction false} ContextOverRuns(cfg: Config, s: Memory.State, pids: seq<nat>, slots: seq<Tlb.Slot>,
          es: seq<Event>)
    requires FreshMemory(s) && Distinct(pids) && 0 !in pids && slots != []
    requires BootTables(s, pids).Done?
    ensures InContext(Run(FreshMachine(cfg, BootTables(s, pids).s, pids, slots), es))
  {
    var o := Boot(cfg, s, pids, slots);
    var k0 := FreshMachine(cfg, BootTables(s, pids).s, pids, slots);
    var o' := RunKeeps(k0, o, es);
    var k := Run(k0, es);
    RemainingIsLive(k, o');
    if k.current != 0 {
      RunningRoot(k, o');
    }
  }

  /* ----- scheduling ----- */

  /** Interrupts that happen in a run. */
  ghost function Interrupts(k: Machine, es: seq<Event>): nat
    decreases |es|
  {
    if es == [] then 0
    else (if !es[0].Touch? && Enabled(k, es[0]) then 1 else 0) + Interrupts(Step(k, es[0]), es[1..])
  }

  /** What an event does to the queue and the running process. */
  lemma {:induction false} StepQueue(k: Machine, o: Account, e: Event)
    requires Inv(k, o)
    ensures var k' := Step(k, e);
      if e.Touch? || !Enabled(k, e) then k'.ready == k.ready && k'.current == k.current
      else k.ready != [] ==> k'.current == k.ready[0] && k.ready[1..] <= k'.ready
  {
    if e.Touch? && Enabled(k, e) {
      var o' := AccessKeeps(k, o, e.addr);
    }
  }

  /** The process at position j of a queue, c interrupts later: j - c from the front, or running
      after exactly j + 1. */
  predicate Served(queue: seq<nat>, j: nat, c: nat, k: Machine)
    requires j < |queue|
  {
    && (c <= j ==> j - c < |k.ready| && k.ready[j - c] == queue[j])
    && (c == j + 1 ==> k.current == queue[j])
  }

  lemma ServedLater(queue: seq<nat>, queue': seq<nat>, j: nat, c: nat, k: Machine)
    requires 0 < j < |queue| && queue[1..] <= queue' && Served(queue', j - 1, c, k)
    ensures Served(queue, j, c + 1, k)
  {
    assert queue'[j - 1] == queue[1..][j - 1];
  }

  /** Round robin: every waiting process is served in its turn, whoever exits meanwhile. */
  lemma {:induction false} Fairness(k: Machine, o: Account, es: seq<Event>, j: nat)
    requires Inv(k, o) && j < |k.ready|
    ensures Served(k.ready, j, Interrupts(k, es), Run(k, es))
    decreases |es|
  {
    hide Step, Inv;
    if es == [] {
    } else {
      var k1, rest := Step(k, es[0]), es[1..];
      StepQueue(k, o, es[0]);
      var o1 := StepKeeps(k, o, es[0]);
      if es[0].Touch? || !Enabled(k, es[0]) {
        Fairness(k1, o1, rest, j);
      } else if j > 0 {
        Fairness(k1, o1, rest, j - 1);
        ServedLater(k.ready, k1.ready, j, Interrupts(k1, rest), Run(k1, rest));
      } else if Interrupts(k1, rest) == 0 {
        NoInterrupt(k1, o1, rest);
      }
    }
  }

  lemma {:induction false} NoInterrupt(k: Machine, o: Account, es: seq<Event>)
    requires Inv(k, o) && Interrupts(k, es) == 0
    ensures Run(k, es).current == k.current && Run(k, es).ready == k.ready
    decreases |es|
  {
    if es == [] {
    } else {
      StepQueue(k, o, es[0]);
      var o1 := StepKeeps(k, o, es[0]);
      NoInterrupt(Step(k, es[0]), o1, es[1..]);
    }
  }

  /* ----- who exits ----- */

  /** The processes that exit in a run, in order. */
  ghost function Leavers(k: Machine, es: seq<Event>): seq<nat>
    decreases |es|
  {
    if es == [] then []
    else (if es[0].Leave? && Enabled(k, es[0]) then [k.current] else []) + Leavers(Step(k, es[0]), es[1..])
  }

  lemma {:induction false} StepLeaves(k: Machine, o: Account, e: Event)
    requires Inv(k, o)
    ensures var gone := if e.Leave? && Enabled(k, e) then {k.current} else {};
      gone <= k.mm.roots.Keys && Step(k, e).mm.roots.Keys == k.mm.roots.Keys - gone
  {
    hide HandleInterrupt, Access, Sound, TlbCoherent, Teardown.Terminate;
    match e {
      case Touch(addr) =>
        if Enabled(k, e) {
          var o' := AccessKeeps(k, o, addr);
        }
      case Tick =>
        InterruptKeeps(k, o, Timer);
      case Leave =>
        if Enabled(k, e) {
          InterruptKeeps(k, o, SyscallExit);
          Teardown.TerminateKind(k.mm, k.current);
        }
    }
  }

  /** Over every run the processes that exit are those live at first and not at the end, each once. */
  lemma {:induction false} LeaversOverRuns(k: Machine, o: Account, es: seq<Event>)
    requires Inv(k, o)
    ensures Distinct(Leavers(k, es)) && Run(k, es).mm.roots.Keys <= k.mm.roots.Keys
    ensures forall p :: p in Leavers(k, es) <==> p in k.mm.roots && p !in Run(k, es).mm.roots
    decreases |es|
  {
    hide Step, Inv, Enabled;
    if es == [] {
    } else {
      var k1, rest := Step(k, es[0]), es[1..];
      StepLeaves(k, o, es[0]);
      var o1 := StepKeeps(k, o, es[0]);
      LeaversOverRuns(k1, o1, rest);
      if es[0].Leave? && Enabled(k, es[0]) {
        DistinctCons(k.current, Leavers(k1, rest));
      } else {
        assert [] + Leavers(k1, rest) == Leavers(k1, rest);
      }
    }
  }

  lemma DistinctCons(p: nat, ps: seq<nat>)
    requires Distinct(ps) && p !in ps
    ensures Distinct([p] + ps) && forall q :: q in [p] + ps <==> q == p || q in ps
  {
  }

  /* ----- the end ----- */

  /** The processes the kernel ends when it goes: the queue, and the running one last. */
  function Remaining(k: Machine): seq<nat> {
    k.ready + if k.current != 0 then [k.current] else []
  }

  lemma {:induction false} RemainingIsLive(k: Machine, o: Account)
    requires Inv(k, o)
    ensures Distinct(Remaining(k)) && forall p :: p in Remaining(k) <==> p in k.mm.roots
    ensures |Remaining(k)| == |k.mm.roots|
  {
    if k.current != 0 {
      DistinctAppend(k.ready, [k.current]);
    }
    assert k.mm.roots.Keys == Teardown.ToSet(Remaining(k));
    DistinctCard(Remaining(k));
  }

  lemma {:induction false} DistinctCard(fs: seq<nat>)
    requires Distinct(fs)
    ensures |Teardown.ToSet(fs)| == |fs|
  {
    if fs == [] {
      assert Teardown.ToSet(fs) == {};
    } else {
      Teardown.ToSetCons(fs);
      DistinctCard(fs[1..]);
    }
  }

  /** Nothing is allocated any more, after n processes. The hole list counts no page; the bitmap
      counts, in 64-bit words, minus one for each inner table ever made. */
  ghost predicate AllReturned(s: Memory.State, n: nat) {
    && (forall f: nat :: !Allocated(s.mgr, f))
    && s.bytes >= n * PAGE_SIZE
    && Used(s.mgr) == if s.mgr.HoleMgr? then 0 else (n - s.bytes / PAGE_SIZE) % TWO_64
  }

  /** Ending the processes that remain returns every frame. */
  lemma {:induction false} EndReturnsAll(k: Machine, o: Account)
    requires Inv(k, o)
    ensures Distinct(Remaining(k)) && forall p :: p in Remaining(k) ==> p in k.mm.roots
    ensures AllReturned(Teardown.TerminateAll(k.mm, Remaining(k)), Population(k, o))
  {
    RemainingIsLive(k, o);
    var o' := Teardown.TerminateAllEmpties(k.mm, o, Remaining(k));
    EndCounts(Teardown.TerminateAll(k.mm, Remaining(k)), o', Population(k, o));
  }

  lemma EndReturnsN(k: Machine, o: Account, n: nat)
    requires Inv(k, o) && Population(k, o) == n
    ensures Distinct(Remaining(k)) && forall p :: p in Remaining(k) ==> p in k.mm.roots
    ensures AllReturned(Teardown.TerminateAll(k.mm, Remaining(k)), n)
  {
    hide Inv, AllReturned;
    EndReturnsAll(k, o);
  }

  /** However a run from boot went, every frame is returned at the end. */
  lemma {:induction false} ConservationOverRuns(cfg: Config, s: Memory.State, pids: seq<nat>, slots: seq<Tlb.Slot>,
          es: seq<Event>)
    requires FreshMemory(s) && Distinct(pids) && 0 !in pids && slots != []
    requires BootTables(s, pids).Done?
    ensures var k := Run(FreshMachine(cfg, BootTables(s, pids).s, pids, slots), es);
      && Distinct(Remaining(k)) && (forall p :: p in Remaining(k) ==> p in k.mm.roots)
      && AllReturned(Teardown.TerminateAll(k.mm, Remaining(k)), |pids|)
  {
    var k0 := FreshMachine(cfg, BootTables(s, pids).s, pids, slots);
    var o := Boot(cfg, s, pids, slots);
    RemainingIsLive(k0, o);
    assert Remaining(k0) == pids;
    hide Inv, AllReturned;
    var o' := RunKeeps(k0, o, es);
    EndReturnsN(Run(k0, es), o', |pids|);
  }

  lemma {:induction false} EndCounts(s: Memory.State, o: Account, n: nat)
    requires Sound(s, o) && o.role == map[] && o.gone == n
    ensures AllReturned(s, n)
  {
    assert Tables(o.role) == {};
    assert s.bytes / PAGE_SIZE == o.twice + n;
  }
}
