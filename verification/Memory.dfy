/** The kernel's view of memory: tables in RAM, the page manager, the root of each process, and the
    frames charged to each process. Tables are named by frame number (address / 4096). */
module Memory {
  import opened Sv48
  import opened PageTable
  import opened Managers

  /** Bytes handed to a process, recorded so that they can be released when it ends. */
  datatype Grant = Grant(addr: nat, size: nat)

  datatype Error =
    | MemoryFull | ZeroSize | UnsupportedAlignment | NoRootTable | NoPageTableSet | UnalignedRoot |
    NoTimerInterval | TooMuchMemory | MapFailed

  datatype State = State(mem: Ram, mgr: Mgr, roots: map<nat, nat>, ledger: Ledger, bytes: nat)

  /** The state after a step, and the exception that ended the step early, if any. */
  datatype Outcome = Done(s: State) | Failed(s: State, error: Error)

  function Charge(s: State, pid: nat, g: Grant): State {
    s.(ledger := s.ledger[pid := Entries(s.ledger, pid) + [g]])
  }

  /** Memory for process pid; the address, if there was room. */
  ghost function AllocateMemory(s: State, pid: nat, size: nat): (Option<nat>, State) {
    var (a, m) := Allocate(s.mgr, PagesFor(size));
    match a
    case None => (None, s.(mgr := m))
    case Some(addr) => (Some(addr), Charge(s.(mgr := m), pid, Grant(addr, PagesFor(size) * PAGE_SIZE)))
  }

  /** A cleared table, charged to process pid. */
  ghost function NewTable(s: State, pid: nat): (Option<nat>, State) {
    var (a, s') := AllocateMemory(s, pid, PAGE_SIZE);
    match a
    case None => (None, s')
    case Some(addr) =>
      var f := addr / PAGE_SIZE;
      (Some(f), s'.(bytes := s'.bytes + PAGE_SIZE, mem := s'.mem[f := Cleared(At(s'.mem, f))]))
  }

  /** A root table for process pid, charged to process cur; a root it already has stays. */
  ghost function AllocatePageTable(s: State, cur: nat, pid: nat): Outcome {
    var (t, s') := NewTable(s, cur);
    match t
    case None => Failed(s', MemoryFull)
    case Some(f) => Done(s'.(roots := if pid in s'.roots then s'.roots else s'.roots[pid := f]))
  }

  /** The table that entry i of table t points to; made and linked when the entry is invalid. */
  ghost function NextTable(s: State, cur: nat, t: nat, i: Index): (Option<nat>, State) {
    var e := At(s.mem, t)[i];
    if e.valid then (Some(e.ppn), s)
    else
      var (c, s') := NewTable(s, cur);
      match c
      case None => (None, s')
      case Some(f) =>
        var linked := s'.(mem := SetEntry(s'.mem, t, i, Pointer(f)));
        (Some(At(linked.mem, t)[i].ppn), linked)
  }

  /** Maps the rest of a path below table t to frame d, linking the tables that are missing. */
  ghost function MapFrom(s: State, cur: nat, t: nat, idx: seq<Index>, d: nat): Outcome
    requires idx != []
    decreases |idx|
  {
    if |idx| == 1 then Done(s.(mem := SetEntry(s.mem, t, idx[0], Leaf(d))))
    else
      var (c, s') := NextTable(s, cur, t, idx[0]);
      match c
      case None => Failed(s', MemoryFull)
      case Some(t') => MapFrom(s', cur, t', idx[1..], d)
  }

  ghost function SetMapping(s: State, cur: nat, pid: nat, vAddr: u64, pAddr: nat): Outcome {
    if pid !in s.roots then Failed(s, NoRootTable)
    else MapFrom(s, cur, s.roots[pid], DriverPath(vAddr), pAddr / PAGE_SIZE)
  }

  /** A fresh page charged to process cur and mapped at the faulting page. */
  ghost function Fault(s: State, cur: nat, addr: u64): Outcome {
    var (a, m) := Allocate(s.mgr, 1);
    match a
    case None => Failed(s.(mgr := m), MemoryFull)
    case Some(pAddr) =>
      SetMapping(Charge(s.(mgr := m), cur, Grant(pAddr, PAGE_SIZE)), cur, cur, PageBase(addr), pAddr)
  }

  /* ----- the invariant ----- */

  /** What every allocated frame is for, how often a release met a free page, and how many
      processes have ended. */
  datatype Account = Account(role: Roles, twice: nat, gone: nat)

  predicate IsRoot(r: Role) { r.Inner? && r.path == [] }

  ghost function Tables(role: Roles): set<nat> {
    set f | f in role && role[f].Inner?
  }

  function Frame(f: nat): Grant { Grant(f * PAGE_SIZE, PAGE_SIZE) }

  function FrameGrants(fs: seq<nat>): (gs: seq<Grant>)
    ensures |gs| == |fs| && forall k :: 0 <= k < |fs| ==> gs[k] == Frame(fs[k])
  {
    seq(|fs|, k requires 0 <= k < |fs| => Frame(fs[k]))
  }

  /** A grant of process p is one frame, allocated, and not the root of p. */
  ghost predicate GrantOk(role: Roles, p: nat, g: Grant) {
    var f := g.addr / PAGE_SIZE;
    g == Frame(f) && f in role && role[f].pid == p && !IsRoot(role[f])
  }

  type Ledger = map<nat, seq<Grant>>

  function Entries(ledger: Ledger, pid: nat): seq<Grant> {
    if pid in ledger then ledger[pid] else []
  }

  /** The ledger of p lists frames of p that are not its root, each once. */
  ghost predicate EntriesOk(ledger: Ledger, roots: map<nat, nat>, role: Roles, p: nat)
    requires p in ledger
  {
    && p in roots
    && (forall k :: 0 <= k < |ledger[p]| ==> GrantOk(role, p, ledger[p][k]))
    && (forall j, k :: 0 <= j < k < |ledger[p]| ==> ledger[p][j] != ledger[p][k])
  }

  ghost predicate Listed(ledger: Ledger, role: Roles, f: nat)
    requires f in role
  {
    IsRoot(role[f]) || Frame(f) in Entries(ledger, role[f].pid)
  }

  /** Apart from owner 0, which holds the roots, ledgers list exactly the frames that are not roots. */
  ghost predicate LedgerOk(ledger: Ledger, roots: map<nat, nat>, role: Roles) {
    && (forall p {:trigger EntriesOk(ledger, roots, role, p)} :: p in ledger && p != 0 ==>
          EntriesOk(ledger, roots, role, p))
    && (forall f {:trigger Listed(ledger, role, f)} :: f in role ==> Listed(ledger, role, f))
  }

  /** The allocated frames, and only those, have a role. */
  ghost predicate RolesAreAllocated(m: Mgr, role: Roles) {
    forall f {:trigger Allocated(m, f)} :: f in role <==> Allocated(m, f)
  }

  ghost predicate CoversRam(mem: Ram, n: nat) {
    forall f :: f in mem <==> BASE_FRAME <= f < BASE_FRAME + n
  }

  /** What the page counter holds for live frames and twice-released pages: the bitmap counts every
      release, in 64-bit words. */
  function CountOf(bitmap: bool, live: nat, twice: nat): u64 {
    (if bitmap then live - twice else live) % TWO_64
  }

  /** The page counter is the number of allocated frames, less, for the bitmap, the releases it
      counted twice; every table ever created is live, was counted in twice, or was a root. */
  ghost predicate Counted(s: State, o: Account) {
    && Used(s.mgr) == CountOf(s.mgr.BitMgr?, |o.role|, o.twice)
    && s.bytes == PAGE_SIZE * (|Tables(o.role)| + o.twice + o.gone)
  }

  ghost predicate Sound(s: State, o: Account) {
    && Ok(s.mgr)
    && CoversRam(s.mem, Pages(s.mgr))
    && 0 !in s.roots
    && TreeOk(s.mem, s.roots, o.role)
    && RolesAreAllocated(s.mgr, o.role)
    && LedgerOk(s.ledger, s.roots, o.role)
    && Counted(s, o)
  }

  /** What mapping a page needs: every table is a frame in use, and where its role says. */
  ghost predicate Shaped(s: State, role: Roles) {
    && Ok(s.mgr)
    && CoversRam(s.mem, Pages(s.mgr))
    && TreeOk(s.mem, s.roots, role)
    && forall f {:trigger Allocated(s.mgr, f)} :: f in role ==> Allocated(s.mgr, f)
  }

  lemma SoundIsShaped(s: State, o: Account)
    requires Sound(s, o)
    ensures Shaped(s, o.role)
  {
  }

  lemma ShapedTree(s: State, role: Roles)
    requires Shaped(s, role)
    ensures TreeOk(s.mem, s.roots, role)
  {
  }

  /* ----- allocation ----- */

  lemma {:induction false} OnePage()
    ensures PagesFor(PAGE_SIZE) == 1
  {
  }

  /** One more page: the lowest free frame. */
  lemma {:induction false} TakeFrame(s: State, role: Roles)
    requires Shaped(s, role) && Allocate(s.mgr, 1).0.Some?
    ensures var (a, m) := Allocate(s.mgr, 1); var f := a.value / PAGE_SIZE;
      && a.value == f * PAGE_SIZE && InRange(s.mgr, f) && f !in role && f in s.mem && f < TWO_44
      && Ok(m) && Pages(m) == Pages(s.mgr) && m.BitMgr? == s.mgr.BitMgr?
      && (forall g :: Allocated(m, g) <==> Allocated(s.mgr, g) || g == f)
      && Used(m) == (Used(s.mgr) + 1) % TWO_64
  {
    AllocateOne(s.mgr);
    OkBits(s.mgr);
    OkBits(Allocate(s.mgr, 1).1);
  }

  /** A frame charged to live process p and not yet used. */
  lemma {:induction false} ChargeKeeps(s: State, o: Account, p: nat)
    requires Sound(s, o) && p in s.roots && Allocate(s.mgr, 1).0.Some?
    ensures var (a, m) := Allocate(s.mgr, 1); var f := a.value / PAGE_SIZE;
      Sound(Charge(s.(mgr := m), p, Frame(f)), o.(role := o.role[f := Loose(p)]))
  {
    TakeFrame(s, o.role);
    var (a, m) := Allocate(s.mgr, 1);
    var f := a.value / PAGE_SIZE;
    var s', o' := Charge(s.(mgr := m), p, Frame(f)), o.(role := o.role[f := Loose(p)]);
    LooseKeepsTree(s.mem, s.roots, o.role, f, p);
    ChargeKeepsLedger(s.ledger, s.roots, o.role, p, f);
    ChargeCounts(s, o, s', f, p);
  }

  lemma RoleAdded(role: Roles, f: nat, r: Role)
    requires f !in role
    ensures |role[f := r]| == |role| + 1
    ensures Tables(role[f := r]) == if r.Inner? then Tables(role) + {f} else Tables(role)
  {
    assert role[f := r].Keys == role.Keys + {f};
  }

  lemma ModStep(x: int)
    ensures (x % TWO_64 + 1) % TWO_64 == (x + 1) % TWO_64
    ensures (x % TWO_64 - 1) % TWO_64 == (x - 1) % TWO_64
  {
  }

  lemma {:induction false} ChargeCounts(s: State, o: Account, s': State, f: nat, p: nat)
    requires Counted(s, o) && f !in o.role && s'.bytes == s.bytes && s'.mgr.BitMgr? == s.mgr.BitMgr?
    requires Used(s'.mgr) == (Used(s.mgr) + 1) % TWO_64
    ensures Counted(s', o.(role := o.role[f := Loose(p)]))
  {
    RoleAdded(o.role, f, Loose(p));
    ModStep(if s.mgr.BitMgr? then |o.role| - o.twice else |o.role|);
  }

  lemma {:induction false} LooseKeepsTree(mem: Ram, roots: map<nat, nat>, role: Roles, f: nat, p: nat)
    requires TreeOk(mem, roots, role) && f !in role && f in mem && f < TWO_44 && p in roots
    ensures TreeOk(mem, roots, role[f := Loose(p)])
  {
    var role' := role[f := Loose(p)];
    forall g | g in role'
      ensures FrameOk(mem, roots, role', g)
    {
      if g != f {
        assert FrameOk(mem, roots, role, g);
        if role[g].Inner? {
          forall i: Index
            ensures EntryOk(role', g, mem[g][i], i)
          {
            assert EntryOk(role, g, mem[g][i], i);
          }
        }
      }
    }
  }

  lemma {:induction false} ChargeKeepsLedger(ledger: Ledger, roots: map<nat, nat>, role: Roles, p: nat, f: nat)
    requires LedgerOk(ledger, roots, role) && f !in role && p in roots && p != 0
    ensures LedgerOk(ledger[p := Entries(ledger, p) + [Frame(f)]], roots, role[f := Loose(p)])
  {
    var ledger', role' := ledger[p := Entries(ledger, p) + [Frame(f)]], role[f := Loose(p)];
    forall q | q in ledger' && q != 0
      ensures EntriesOk(ledger', roots, role', q)
    {
      assert q in ledger ==> EntriesOk(ledger, roots, role, q);
    }
    forall g | g in role'
      ensures Listed(ledger', role', g)
    {
      assert g != f ==> Listed(ledger, role, g);
    }
  }

  /* ----- mapping ----- */

  /** Roles change but neither the frames nor their owners nor which are roots. */
  ghost predicate SameOwners(role: Roles, role': Roles) {
    && role'.Keys == role.Keys
    && forall f :: f in role ==> role'[f].pid == role[f].pid && IsRoot(role'[f]) == IsRoot(role[f])
  }

  lemma {:induction false} SameOwnersLedger(ledger: Ledger, roots: map<nat, nat>, role: Roles, role': Roles)
    requires LedgerOk(ledger, roots, role) && SameOwners(role, role')
    ensures LedgerOk(ledger, roots, role')
  {
    forall q | q in ledger && q != 0
      ensures EntriesOk(ledger, roots, role', q)
    {
      assert EntriesOk(ledger, roots, role, q);
    }
    forall g | g in role'
      ensures Listed(ledger, role', g)
    {
      assert Listed(ledger, role, g);
    }
  }

  /** The table created for a missing entry, linked. */
  ghost function LinkNew(s: State, t: nat, i: Index, c: nat): State {
    s.(bytes := s.bytes + PAGE_SIZE, mem := Linking(s.mem, t, i, c))
  }

  lemma {:induction false} LinkKeeps(s: State, o: Account, t: nat, i: Index, c: nat)
    requires Sound(s, o)
    requires t in o.role && o.role[t].Inner? && |o.role[t].path| < 3 && !At(s.mem, t)[i].valid
    requires c in o.role && o.role[c] == Loose(o.role[t].pid)
    ensures Sound(LinkNew(s, t, i, c), o.(role := LinkRole(o.role, t, i, c)))
  {
    assert FrameOk(s.mem, s.roots, o.role, t) && FrameOk(s.mem, s.roots, o.role, c);
    LinkKeepsTree(s.mem, s.roots, o.role, t, i, c);
    var role' := LinkRole(o.role, t, i, c);
    assert SameOwners(o.role, role');
    SameOwnersLedger(s.ledger, s.roots, o.role, role');
    LinkCounts(o.role, t, i, c);
  }

  lemma {:induction false} LeafKeeps(s: State, o: Account, t: nat, i: Index, d: nat)
    requires Sound(s, o)
    requires t in o.role && o.role[t].Inner? && |o.role[t].path| == 3
    requires d in o.role && o.role[d] == Loose(o.role[t].pid)
    ensures Sound(s.(mem := SetEntry(s.mem, t, i, Leaf(d))),
                  o.(role := LeafRole(o.role, t, i, At(s.mem, t)[i], d)))
  {
    assert FrameOk(s.mem, s.roots, o.role, t) && FrameOk(s.mem, s.roots, o.role, d);
    assert EntryOk(o.role, t, s.mem[t][i], i);
    LeafKeepsTree(s.mem, s.roots, o.role, t, i, d);
    var role' := LeafRole(o.role, t, i, At(s.mem, t)[i], d);
    assert SameOwners(o.role, role');
    SameOwnersLedger(s.ledger, s.roots, o.role, role');
    SameCounts(o.role, role');
  }

  lemma LinkCounts(role: Roles, t: nat, i: Index, c: nat)
    requires t in role && role[t].Inner? && c in role && !role[c].Inner?
    ensures |LinkRole(role, t, i, c)| == |role|
    ensures |Tables(LinkRole(role, t, i, c))| == |Tables(role)| + 1
  {
    assert LinkRole(role, t, i, c).Keys == role.Keys;
    assert Tables(LinkRole(role, t, i, c)) == Tables(role) + {c};
  }

  lemma SameCounts(role: Roles, role': Roles)
    requires role'.Keys == role.Keys && forall f :: f in role ==> role'[f].Inner? == role[f].Inner?
    ensures |role'| == |role| && Tables(role') == Tables(role)
  {
  }

  /** What process p maps at a full path. */
  ghost function Mapped(s: State, p: nat, idx: seq<Index>): Option<nat> {
    if p in s.roots then Walk(s.mem, s.roots[p], idx) else None
  }

  /** No process's mapping differs between s and s'. */
  ghost predicate SameMaps(s: State, s': State) {
    s'.roots == s.roots && forall q, w: seq<Index> :: |w| == 4 ==> Mapped(s', q, w) == Mapped(s, q, w)
  }

  /** The mappings of s' are those of s with one path of one process pointed at d. */
  ghost predicate MapUpdated(s: State, s': State, p: nat, path: seq<Index>, d: nat) {
    && s'.roots == s.roots
    && forall q, w: seq<Index> :: |w| == 4 ==>
         Mapped(s', q, w) == if q == p && w == path then Some(d) else Mapped(s, q, w)
  }

  lemma {:induction false} RootRole(s: State, o: Account, p: nat)
    requires Sound(s, o) && p in s.roots
    ensures s.roots[p] in o.role && o.role[s.roots[p]] == Inner(p, [], 0) && p != 0
  {
  }

  lemma {:induction false} LinkKeepsMaps(s: State, role: Roles, t: nat, i: Index, c: nat)
    requires TreeOk(s.mem, s.roots, role)
    requires t in role && role[t].Inner? && |role[t].path| < 3 && !At(s.mem, t)[i].valid
    requires c in role && role[c] == Loose(role[t].pid)
    ensures SameMaps(s, LinkNew(s, t, i, c))
  {
    forall q, w: seq<Index> | |w| == 4 && q in s.roots
      ensures Mapped(LinkNew(s, t, i, c), q, w) == Mapped(s, q, w)
    {
      LinkKeepsWalk(s.mem, s.roots, role, t, i, c, s.roots[q], w);
    }
  }

  lemma {:induction false} LeafUpdatesMaps(s: State, role: Roles, t: nat, i: Index, d: nat)
    requires TreeOk(s.mem, s.roots, role)
    requires t in role && role[t].Inner? && |role[t].path| == 3 && d < TWO_44
    ensures MapUpdated(s, s.(mem := SetEntry(s.mem, t, i, Leaf(d))), role[t].pid, role[t].path + [i], d)
  {
    forall q, w: seq<Index> | |w| == 4 && q in s.roots
      ensures Mapped(s.(mem := SetEntry(s.mem, t, i, Leaf(d))), q, w) ==
              if q == role[t].pid && w == role[t].path + [i] then Some(d) else Mapped(s, q, w)
    {
      LeafUpdatesWalk(s.mem, s.roots, role, t, i, d, s.roots[q], w);
      assert [] + w == w;
    }
    assert FrameOk(s.mem, s.roots, role, t);
  }

  /** How mapping a path ends: the one update, or memory full and no mapping changed. */
  ghost predicate MapResult(s: State, r: Outcome, p: nat, path: seq<Index>, d: nat) {
    match r
    case Done(s') => MapUpdated(s, s', p, path, d)
    case Failed(s', e) => e == MemoryFull && SameMaps(s, s')
  }

  lemma MapAfterSame(s: State, s1: State, r: Outcome, p: nat, path: seq<Index>, d: nat)
    requires SameMaps(s, s1) && MapResult(s1, r, p, path, d)
    ensures MapResult(s, r, p, path, d)
  {
  }

  /** Apart from frame d, roles only grow, by tables on the way to path. */
  ghost predicate Grown(role: Roles, role': Roles, p: nat, path: seq<Index>, d: nat) {
    && (forall f :: f in role && f != d ==> f in role' && role'[f] == role[f])
    && (forall f :: f in role' && f !in role && f != d ==>
          role'[f].Inner? && role'[f].pid == p && role'[f].path != [] && role'[f].path < path)
  }

  lemma GrownAfter(role: Roles, c: nat, r: Role, role': Roles, p: nat, path: seq<Index>, d: nat)
    requires c !in role && Grown(role[c := r], role', p, path, d)
    requires c == d || (r.Inner? && r.pid == p && r.path != [] && r.path < path)
    ensures Grown(role, role', p, path, d)
  {
  }

  /** Roles that were there stay; at most one of the new ones is no table. */
  ghost predicate Extends(role: Roles, role': Roles) {
    && (forall f :: f in role ==> f in role' && role'[f] == role[f])
    && (forall f, g :: f in role' && g in role' && f !in role && g !in role && !role'[f].Inner? && !role'[g].Inner? ==>
          f == g)
  }

  /** The new frames are those of process p. */
  ghost predicate NewFor(role: Roles, role': Roles, p: nat) {
    forall f :: f in role' && f !in role ==> role'[f].pid == p
  }

  lemma GrownExtends(role: Roles, role': Roles, p: nat, path: seq<Index>, d: nat)
    requires Grown(role, role', p, path, d) && d !in role
    ensures Extends(role, role')
  {
  }

  ghost predicate MapGrows(s: State, r: Outcome, role: Roles, role': Roles, t: nat, path: seq<Index>, d: nat)
    requires t in role
  {
    && Grown(role, role', role[t].pid, path, d) && d in role'
    && if r.Done? then role'[d].Page? && role'[d].pid == role[t].pid && role'[d].path == path
       else role'[d] == Loose(role[t].pid)
  }

  /** A table is a page of memory, cleared. */
  lemma {:induction false} NewTableIs(s: State, role: Roles, cur: nat)
    requires Shaped(s, role)
    ensures var (a, m) := Allocate(s.mgr, 1);
      match a
      case None => NewTable(s, cur) == (None, s)
      case Some(addr) =>
        var f := addr / PAGE_SIZE; var s1 := Charge(s.(mgr := m), cur, Frame(f));
        && f !in role && f in s.mem && f < TWO_44
        && NewTable(s, cur) == (Some(f), s1.(bytes := s1.bytes + PAGE_SIZE, mem := s1.mem[f := Cleared(At(s1.mem, f))]))
  {
    hide TreeOk;
    OnePage();
    AllocateOne(s.mgr);
    if Allocate(s.mgr, 1).0.Some? {
      TakeFrame(s, role);
    }
    hide Shaped, CoversRam, Allocate, Ok, Cleared, At, Entries;
  }

  /** A missing table is the lowest free frame, charged to cur, cleared and linked. */
  lemma {:induction false} MissingIsLinked(s: State, role: Roles, cur: nat, t: nat, i: Index)
    requires Shaped(s, role) && t in role && !At(s.mem, t)[i].valid
    ensures var (a, m) := Allocate(s.mgr, 1);
      match a
      case None => NextTable(s, cur, t, i) == (None, s)
      case Some(addr) =>
        var f := addr / PAGE_SIZE; var s1 := Charge(s.(mgr := m), cur, Frame(f));
        && f !in role && f in s.mem
        && NextTable(s, cur, t, i) == (Some(f), LinkNew(s1, t, i, f))
        && forall j: Index :: !At(LinkNew(s1, t, i, f).mem, f)[j].valid
  {
    hide Shaped, Allocate, NewTable, Charge;
    NewTableIs(s, role, cur);
  }

  lemma OwnerLives(s: State, role: Roles, f: nat)
    requires Shaped(s, role) && f in role
    ensures role[f].pid in s.roots
  {
    assert FrameOk(s.mem, s.roots, role, f);
  }

  /** Charging a page changes no mapping. */
  lemma ChargedMaps(s: State, m: Mgr, p: nat, g: Grant, s': State)
    requires SameMaps(Charge(s.(mgr := m), p, g), s')
    ensures SameMaps(s, s')
  {
  }

  /** Making and linking a missing table. */
  lemma {:induction false} GrowTable(s: State, o: Account, t: nat, i: Index) returns (o': Account)
    requires Sound(s, o)
    requires t in o.role && o.role[t].Inner? && |o.role[t].path| < 3 && !At(s.mem, t)[i].valid
    ensures var (c, s') := NextTable(s, o.role[t].pid, t, i);
      && (c.None? ==> s' == s && o' == o)
      && (c.Some? ==>
            && Sound(s', o') && SameMaps(s, s') && o'.twice == o.twice && o'.gone == o.gone
            && c.value !in o.role && o'.role == o.role[c.value := Inner(o.role[t].pid, o.role[t].path + [i], t)]
            && (forall j: Index :: !At(s'.mem, c.value)[j].valid))
  {
    hide Sound, Shaped, TreeOk, NextTable, Allocate, SameMaps;
    SoundIsShaped(s, o);
    var p := o.role[t].pid;
    OwnerLives(s, o.role, t);
    MissingIsLinked(s, o.role, p, t, i);
    var (a, m) := Allocate(s.mgr, 1);
    o' := o;
    if a.Some? {
      ChargeKeeps(s, o, p);
      var f := a.value / PAGE_SIZE;
      var s1, o1 := Charge(s.(mgr := m), p, Frame(f)), o.(role := o.role[f := Loose(p)]);
      LinkKeeps(s1, o1, t, i, f);
      SoundIsShaped(s1, o1);
      ShapedTree(s1, o1.role);
      LinkKeepsMaps(s1, o1.role, t, i, f);
      ChargedMaps(s, m, p, Frame(f), LinkNew(s1, t, i, f));
      o' := o1.(role := LinkRole(o1.role, t, i, f));
    }
  }

  /** The next table on the way down, found or made: no mapping changes. */
  lemma {:induction false} NextTableKeeps(s: State, o: Account, t: nat, i: Index) returns (o': Account)
    requires Sound(s, o)
    requires t in o.role && o.role[t].Inner? && |o.role[t].path| < 3
    ensures var (c, s') := NextTable(s, o.role[t].pid, t, i);
      && Sound(s', o') && SameMaps(s, s') && o'.twice == o.twice && o'.gone == o.gone
      && (forall f :: f in o.role ==> f in o'.role && o'.role[f] == o.role[f])
      && (c.None? ==> s' == s && o' == o)
      && (c.Some? ==> c.value in o'.role && o'.role[c.value] == Inner(o.role[t].pid, o.role[t].path + [i], t)
                      && (c.value in o.role ==> s' == s && o' == o && At(s.mem, t)[i] == Entry(true, false, c.value))
                      && (c.value !in o.role ==>
                            && o'.role == o.role[c.value := o'.role[c.value]]
                            && (forall j: Index :: !At(s'.mem, c.value)[j].valid)))
  {
    assert FrameOk(s.mem, s.roots, o.role, t);
    var e := s.mem[t][i];
    assert EntryOk(o.role, t, e, i);
    o' := o;
    if !e.valid {
      o' := GrowTable(s, o, t, i);
    }
  }

  /** The next table on the way down, whoever is charged for it. */
  lemma {:induction false} NextTableShaped(s: State, role: Roles, cur: nat, t: nat, i: Index) returns (role': Roles)
    requires Shaped(s, role) && t in role && role[t].Inner? && |role[t].path| < 3
    ensures var (c, s') := NextTable(s, cur, t, i);
      && Shaped(s', role') && SameMaps(s, s')
      && (c.Some? ==> c.value in role' && role'[c.value] == Inner(role[t].pid, role[t].path + [i], t))
  {
    assert FrameOk(s.mem, s.roots, role, t) && EntryOk(role, t, s.mem[t][i], i);
    role' := role;
    if !At(s.mem, t)[i].valid {
      MissingIsLinked(s, role, cur, t, i);
      var (a, m) := Allocate(s.mgr, 1);
      if a.Some? {
        TakeFrame(s, role);
        var f, p := a.value / PAGE_SIZE, role[t].pid;
        LooseKeepsTree(s.mem, s.roots, role, f, p);
        LinkKeepsTree(s.mem, s.roots, role[f := Loose(p)], t, i, f);
        LinkKeepsMaps(Charge(s.(mgr := m), cur, Frame(f)), role[f := Loose(p)], t, i, f);
        role' := LinkRole(role[f := Loose(p)], t, i, f);
      }
    }
  }

  /** Mapping below a table is a single map update of its process; when a table cannot be allocated,
      no mapping has changed. */
  lemma {:induction false} MapFromUpdates(s: State, role: Roles, cur: nat, t: nat, idx: seq<Index>, d: nat)
    requires Shaped(s, role) && idx != [] && d < TWO_44
    requires t in role && role[t].Inner? && |role[t].path| + |idx| == 4
    ensures MapResult(s, MapFrom(s, cur, t, idx, d), role[t].pid, role[t].path + idx, d)
    decreases |idx|
  {
    hide Shaped;
    if |idx| == 1 {
      ShapedTree(s, role);
      LeafUpdatesMaps(s, role, t, idx[0], d);
      assert idx == [idx[0]];
    } else {
      var role1 := NextTableShaped(s, role, cur, t, idx[0]);
      var (c, s1) := NextTable(s, cur, t, idx[0]);
      if c.Some? {
        assert role[t].path + idx == role1[c.value].path + idx[1..];
        MapFromUpdates(s1, role1, cur, c.value, idx[1..], d);
        MapAfterSame(s, s1, MapFrom(s, cur, t, idx, d), role[t].pid, role[t].path + idx, d);
      }
    }
  }

  /** The frames fs were free in s; in s' they are tables, counted, and charged to cur, and nothing else is
      charged to anybody. */
  ghost predicate TablesCharged(s: State, s': State, cur: nat, fs: seq<nat>) {
    && s'.bytes == s.bytes + PAGE_SIZE * |fs|
    && (forall p :: p != cur ==> Entries(s'.ledger, p) == Entries(s.ledger, p))
    && Entries(s'.ledger, cur) == Entries(s.ledger, cur) + FrameGrants(fs)
    && (forall f :: f in fs ==> !Allocated(s.mgr, f))
    && (forall f :: Allocated(s'.mgr, f) <==> Allocated(s.mgr, f) || f in fs)
  }

  lemma {:induction false} NextTableCharged(s: State, role: Roles, cur: nat, t: nat, i: Index) returns (fs: seq<nat>)
    requires Shaped(s, role) && t in role
    ensures TablesCharged(s, NextTable(s, cur, t, i).1, cur, fs) && |fs| <= 1
    ensures fs == [] <==> At(s.mem, t)[i].valid || NextTable(s, cur, t, i).0.None?
  {
    fs := [];
    if !At(s.mem, t)[i].valid {
      MissingIsLinked(s, role, cur, t, i);
      var (a, m) := Allocate(s.mgr, 1);
      if a.Some? {
        var f := a.value / PAGE_SIZE;
        TakeFrame(s, role);
        AllocateOne(s.mgr);
        fs := [f];
        OneCharged(s, m, cur, f, t, i);
      } else {
        ChargedNothing(s, s, cur);
      }
    } else {
      ChargedNothing(s, s, cur);
    }
    hide Shaped, Allocate, NextTable, Ok, TablesCharged, TreeOk, LinkNew;
  }

  lemma OneCharged(s: State, m: Mgr, cur: nat, f: nat, t: nat, i: Index)
    requires !Allocated(s.mgr, f) && forall g :: Allocated(m, g) <==> Allocated(s.mgr, g) || g == f
    ensures TablesCharged(s, LinkNew(Charge(s.(mgr := m), cur, Frame(f)), t, i, f), cur, [f])
  {
    hide Allocated;
    assert FrameGrants([f]) == [Frame(f)];
  }

  lemma ChargedOn(s: State, s1: State, s2: State, cur: nat, fs: seq<nat>, gs: seq<nat>)
    requires TablesCharged(s, s1, cur, fs) && TablesCharged(s1, s2, cur, gs)
    ensures TablesCharged(s, s2, cur, fs + gs)
  {
    hide Entries, Allocated;
    assert FrameGrants(fs + gs) == FrameGrants(fs) + FrameGrants(gs);
    hide FrameGrants;
    assert forall f :: f in fs + gs <==> f in fs || f in gs;
    assert forall f :: f in fs ==> !Allocated(s.mgr, f);
    assert Entries(s.ledger, cur) + FrameGrants(fs) + FrameGrants(gs) ==
           Entries(s.ledger, cur) + (FrameGrants(fs) + FrameGrants(gs));
  }

  lemma ChargedNothing(s: State, s': State, cur: nat)
    requires s' == s.(mem := s'.mem)
    ensures TablesCharged(s, s', cur, [])
  {
  }

  /** Mapping below a table charges the new tables to the owner it is made for, and nothing to anybody else. */
  lemma {:induction false} MapFromCharges(s: State, role: Roles, cur: nat, t: nat, idx: seq<Index>, d: nat)
    returns (fs: seq<nat>)
    requires Shaped(s, role) && idx != [] && t in role && role[t].Inner? && |role[t].path| + |idx| == 4
    ensures TablesCharged(s, MapFrom(s, cur, t, idx, d).s, cur, fs)
    decreases |idx|
  {
    hide Shaped, TablesCharged, NextTable;
    if |idx| == 1 {
      fs := [];
      ChargedNothing(s, MapFrom(s, cur, t, idx, d).s, cur);
    } else {
      fs := NextTableCharged(s, role, cur, t, idx[0]);
      var role1 := NextTableShaped(s, role, cur, t, idx[0]);
      var (c, s1) := NextTable(s, cur, t, idx[0]);
      if c.Some? {
        var gs := MapFromCharges(s1, role1, cur, c.value, idx[1..], d);
        ChargedOn(s, s1, MapFrom(s1, cur, c.value, idx[1..], d).s, cur, fs, gs);
        fs := fs + gs;
      }
    }
  }

  /** So does a whole mapping, also when memory runs out on the way. */
  lemma {:induction false} SetMappingCharges(s: State, role: Roles, cur: nat, pid: nat, vAddr: u64, pAddr: nat)
    returns (fs: seq<nat>)
    requires Shaped(s, role)
    ensures TablesCharged(s, SetMapping(s, cur, pid, vAddr, pAddr).s, cur, fs)
  {
    if pid in s.roots {
      fs := MapFromCharges(s, role, cur, s.roots[pid], DriverPath(vAddr), pAddr / PAGE_SIZE);
    } else {
      fs := [];
      ChargedNothing(s, s, cur);
    }
  }

  /** An entry keeps 44 bits of the frame number. */
  lemma {:induction false} MapFromTruncates(s: State, cur: nat, t: nat, idx: seq<Index>, d: nat)
    requires idx != []
    ensures MapFrom(s, cur, t, idx, d) == MapFrom(s, cur, t, idx, d % TWO_44)
    decreases |idx|
  {
    if |idx| == 1 {
      assert Leaf(d) == Leaf(d % TWO_44);
    } else {
      var (c, s1) := NextTable(s, cur, t, idx[0]);
      if c.Some? {
        MapFromTruncates(s1, cur, c.value, idx[1..], d);
      }
    }
  }

  /** A mapping made for any process, mapped before or not, to any address, whoever is charged for the
      tables: that page changes and no other of any process; or there is no root, or memory is full,
      and every mapping is as before. */
  lemma {:induction false} SetMappingUpdates(s: State, role: Roles, cur: nat, pid: nat, vAddr: u64, pAddr: nat)
    requires Shaped(s, role)
    ensures var r := SetMapping(s, cur, pid, vAddr, pAddr);
      && (r == Failed(s, NoRootTable) <==> pid !in s.roots)
      && (pid in s.roots ==> MapResult(s, r, pid, DriverPath(vAddr), (pAddr / PAGE_SIZE) % TWO_44))
  {
    if pid in s.roots {
      MapFromTruncates(s, cur, s.roots[pid], DriverPath(vAddr), pAddr / PAGE_SIZE);
      MapFromUpdates(s, role, cur, s.roots[pid], DriverPath(vAddr), (pAddr / PAGE_SIZE) % TWO_44);
      assert [] + DriverPath(vAddr) == DriverPath(vAddr);
    }
  }

  /** Mapping below a table keeps the invariant and is a single map update of its process; when a
      table cannot be allocated, no mapping has changed. */
  lemma {:induction false} MapFromRefines(s: State, o: Account, t: nat, idx: seq<Index>, d: nat) returns (o': Account)
    requires Sound(s, o) && idx != []
    requires t in o.role && o.role[t].Inner? && |o.role[t].path| + |idx| == 4
    requires d in o.role && o.role[d] == Loose(o.role[t].pid)
    ensures var r := MapFrom(s, o.role[t].pid, t, idx, d);
      && Sound(r.s, o') && o'.twice == o.twice && o'.gone == o.gone
      && MapResult(s, r, o.role[t].pid, o.role[t].path + idx, d)
      && (Walk(s.mem, t, idx) == None ==> MapGrows(s, r, o.role, o'.role, t, o.role[t].path + idx, d))
    decreases |idx|
  {
    var p, e, path := o.role[t].pid, At(s.mem, t)[idx[0]], o.role[t].path + idx;
    assert FrameOk(s.mem, s.roots, o.role, t) && EntryOk(o.role, t, e, idx[0]) && FrameOk(s.mem, s.roots, o.role, d);
    MapFromUpdates(s, o.role, p, t, idx, d);
    if |idx| == 1 {
      LeafKeeps(s, o, t, idx[0], d);
      assert idx == [idx[0]];
      o' := o.(role := LeafRole(o.role, t, idx[0], e, d));
    } else {
      var o1 := NextTableKeeps(s, o, t, idx[0]);
      var (c, s1) := NextTable(s, p, t, idx[0]);
      o' := o1;
      if c.Some? {
        var role1 := o1.role[c.value];
        assert path == role1.path + idx[1..];
        o' := MapFromRefines(s1, o1, c.value, idx[1..], d);
        if c.value !in o.role {
          assert Walk(s1.mem, c.value, idx[1..]) == None;
          GrownAfter(o.role, c.value, role1, o'.role, p, path, d);
        }
      }
    }
  }

  /** A page fault of live process p: the faulting page, and no other page of any process, is mapped,
      to a frame that was free; or memory is full and every mapping is as before. */
  lemma {:induction false} FaultRefines(s: State, o: Account, p: nat, addr: u64) returns (o': Account, d: nat)
    requires Sound(s, o) && p in s.roots
    ensures var r := Fault(s, p, addr);
      && Sound(r.s, o') && o'.twice == o.twice && o'.gone == o.gone
      && MapResult(s, r, p, MmuPath(VPage(addr)), d)
      && d !in o.role
      && (Mapped(s, p, MmuPath(VPage(addr))) == None ==>
            && Grown(o.role, o'.role, p, MmuPath(VPage(addr)), d)
            && (r.Done? ==> d in o'.role && o'.role[d].Page? && o'.role[d].pid == p
                            && o'.role[d].path == MmuPath(VPage(addr))))
  {
    var path := MmuPath(VPage(addr));
    var r := Fault(s, p, addr);
    AllocateOne(s.mgr);
    var (a, m) := Allocate(s.mgr, 1);
    if a.Some? {
      TakeFrame(s, o.role);
      ChargeKeeps(s, o, p);
      d := a.value / PAGE_SIZE;
      var s1 := Charge(s.(mgr := m), p, Frame(d));
      var o1 := o.(role := o.role[d := Loose(p)]);
      RootRole(s1, o1, p);
      FaultIsMapFrom(s, p, addr);
      assert [] + path == path;
      o' := MapFromRefines(s1, o1, s.roots[p], path, d);
      assert SameMaps(s, s1);
      MapAfterSame(s, s1, r, p, path, d);
      if Mapped(s, p, path) == None {
        assert Walk(s1.mem, s.roots[p], path) == None;
        GrownAfter(o.role, d, Loose(p), o'.role, p, path, d);
      }
    } else {
      o', d := o, 0;
      assert 0 in o.role ==> FrameOk(s.mem, s.roots, o.role, 0);
    }
  }

  lemma {:induction false} FaultIsMapFrom(s: State, p: nat, addr: u64)
    requires p in s.roots && Ok(s.mgr) && Allocate(s.mgr, 1).0.Some?
    ensures var (a, m) := Allocate(s.mgr, 1); var d := a.value / PAGE_SIZE;
      Fault(s, p, addr) == MapFrom(Charge(s.(mgr := m), p, Frame(d)), p, s.roots[p], MmuPath(VPage(addr)), d)
  {
    SlicingAgrees(addr);
    AllocateOne(s.mgr);
  }

  /* ----- boot ----- */

  /** A page manager with nothing allocated. */
  ghost predicate FreshMgr(m: Mgr) {
    Ok(m) && Used(m) == 0 && Peak(m) == 0 && forall f {:trigger Allocated(m, f)} :: !Allocated(m, f)
  }

  /** Nothing is known of what RAM holds at boot. */
  ghost predicate FreshMemory(s: State) {
    FreshMgr(s.mgr) && CoversRam(s.mem, Pages(s.mgr)) && s.roots == map[] && s.ledger == map[] && s.bytes == 0
  }

  lemma {:induction false} FreshSound(s: State)
    requires FreshMemory(s)
    ensures Sound(s, Account(map[], 0, 0))
  {
    assert Tables(map[]) == {};
  }

  lemma {:induction false} RootKeepsTree(mem: Ram, roots: map<nat, nat>, role: Roles, f: nat, p: nat)
    requires TreeOk(mem, roots, role) && f !in role && f in mem && f < TWO_44 && p !in roots
    ensures TreeOk(mem[f := Cleared(At(mem, f))], roots[p := f], role[f := Inner(p, [], 0)])
  {
    var mem', roots', role' := mem[f := Cleared(At(mem, f))], roots[p := f], role[f := Inner(p, [], 0)];
    forall g | g in role'
      ensures FrameOk(mem', roots', role', g)
    {
      if g != f {
        assert FrameOk(mem, roots, role, g);
        if role[g].Inner? {
          forall i: Index
            ensures EntryOk(role', g, mem'[g][i], i)
          {
            assert EntryOk(role, g, mem[g][i], i);
          }
        }
      }
    }
  }

  lemma {:induction false} RootKeepsLedger(ledger: Ledger, roots: map<nat, nat>, role: Roles, f: nat, p: nat)
    requires LedgerOk(ledger, roots, role) && f !in role && p !in roots && 0 !in roots
    requires forall g :: g in role ==> role[g].pid in roots
    ensures LedgerOk(ledger[0 := Entries(ledger, 0) + [Frame(f)]], roots[p := f], role[f := Inner(p, [], 0)])
  {
    var ledger', role' := ledger[0 := Entries(ledger, 0) + [Frame(f)]], role[f := Inner(p, [], 0)];
    forall q | q in ledger' && q != 0
      ensures EntriesOk(ledger', roots[p := f], role', q)
    {
      assert EntriesOk(ledger, roots, role, q);
    }
    forall g | g in role'
      ensures Listed(ledger', role', g)
    {
      assert g != f ==> Listed(ledger, role, g);
    }
  }

  /** The state with the next free frame made the root of p and charged to owner 0. */
  ghost function WithRoot(s: State, p: nat): State
    requires Allocate(s.mgr, 1).0.Some?
  {
    var f := Allocate(s.mgr, 1).0.value / PAGE_SIZE;
    State(s.mem[f := Cleared(At(s.mem, f))], Allocate(s.mgr, 1).1, s.roots[p := f],
          s.ledger[0 := Entries(s.ledger, 0) + [Frame(f)]], s.bytes + PAGE_SIZE)
  }

  lemma {:induction false} WithRootSound(s: State, o: Account, p: nat)
    requires Sound(s, o) && p != 0 && p !in s.roots && Allocate(s.mgr, 1).0.Some?
    ensures var f := Allocate(s.mgr, 1).0.value / PAGE_SIZE;
      f !in o.role && Sound(WithRoot(s, p), o.(role := o.role[f := Inner(p, [], 0)]))
  {
    TakeFrame(s, o.role);
    var f := Allocate(s.mgr, 1).0.value / PAGE_SIZE;
    RootKeepsTree(s.mem, s.roots, o.role, f, p);
    forall g | g in o.role
      ensures o.role[g].pid in s.roots
    {
      assert FrameOk(s.mem, s.roots, o.role, g);
    }
    RootKeepsLedger(s.ledger, s.roots, o.role, f, p);
    RootCounts(s, o, WithRoot(s, p), f, p);
  }

  lemma {:induction false} RootCounts(s: State, o: Account, s': State, f: nat, p: nat)
    requires Counted(s, o) && f !in o.role && s'.bytes == s.bytes + PAGE_SIZE && s'.mgr.BitMgr? == s.mgr.BitMgr?
    requires Used(s'.mgr) == (Used(s.mgr) + 1) % TWO_64
    ensures Counted(s', o.(role := o.role[f := Inner(p, [], 0)]))
  {
    RoleAdded(o.role, f, Inner(p, [], 0));
    ModStep(if s.mgr.BitMgr? then |o.role| - o.twice else |o.role|);
  }

  /** A root table for a process that has none: one frame more, and no page mapped by it. */
  lemma {:induction false} RootKeeps(s: State, o: Account, p: nat) returns (o': Account)
    requires Sound(s, o) && p != 0 && p !in s.roots
    ensures var r := AllocatePageTable(s, 0, p);
      && Sound(r.s, o') && o'.twice == o.twice && o'.gone == o.gone
      && (r.Failed? ==> r.s == s && o' == o)
      && (r.Done? ==> r.s.roots.Keys == s.roots.Keys + {p} && r.s.roots[p] !in o.role
                      && o'.role == o.role[r.s.roots[p] := Inner(p, [], 0)])
  {
    hide Allocate, TreeOk, LedgerOk, Counted, CoversRam;
    OnePage();
    AllocateOne(s.mgr);
    o' := o;
    if Allocate(s.mgr, 1).0.Some? {
      WithRootSound(s, o, p);
      var f := Allocate(s.mgr, 1).0.value / PAGE_SIZE;
      assert AllocatePageTable(s, 0, p) == Done(WithRoot(s, p));
      o' := o.(role := o.role[f := Inner(p, [], 0)]);
    }
  }

  /** A walk reads only frames that have a role. */
  lemma {:induction false} WalkElsewhere(mem: Ram, roots: map<nat, nat>, role: Roles, f: nat, idx: seq<Index>, c: nat,
          t: Table)
    requires TreeOk(mem, roots, role) && f in role && role[f].Inner? && |role[f].path| + |idx| == 4 && c !in role
    ensures Walk(mem[c := t], f, idx) == Walk(mem, f, idx)
    decreases |idx|
  {
    assert FrameOk(mem, roots, role, f);
    if idx == [] {
    } else {
      var e := mem[f][idx[0]];
      assert EntryOk(role, f, e, idx[0]);
      if e.valid && !e.read {
        WalkElsewhere(mem, roots, role, e.ppn, idx[1..], c, t);
      }
    }
  }

  lemma ClearedMapsNothing(mem: Ram, f: nat, idx: seq<Index>)
    ensures Walk(mem[f := Cleared(At(mem, f))], f, idx) == None
  {
  }

  /** A root table asked for any process, whoever is charged. On success one frame nobody had is taken and
      counted; a process that has a root keeps it, and every mapping is as before. */
  lemma {:induction false} RootUpdates(s: State, role: Roles, cur: nat, pid: nat)
    requires Shaped(s, role)
    ensures var r := AllocatePageTable(s, cur, pid); var a := Allocate(s.mgr, 1).0;
      match r
      case Failed(s', e) => e == MemoryFull && s' == s && a.None?
      case Done(s') =>
        && a.Some? && a.value / PAGE_SIZE !in role && s'.mgr == Allocate(s.mgr, 1).1 && s'.bytes == s.bytes + PAGE_SIZE
        && s'.roots.Keys == s.roots.Keys + {pid}
        && (forall p :: p in s.roots ==> s'.roots[p] == s.roots[p])
        && (pid !in s.roots ==> s'.roots[pid] == a.value / PAGE_SIZE)
        && (forall p, w: seq<Index> :: |w| == 4 ==> Mapped(s', p, w) == Mapped(s, p, w))
        && (forall p :: Entries(s'.ledger, p) ==
              Entries(s.ledger, p) + if p == cur then [Frame(a.value / PAGE_SIZE)] else [])
  {
    ShapedTree(s, role);
    NewTableIs(s, role, cur);
    AllocateOne(s.mgr);
    var r := AllocatePageTable(s, cur, pid);
    if r.Done? {
      var f := Allocate(s.mgr, 1).0.value / PAGE_SIZE;
      forall p, w: seq<Index> | |w| == 4
        ensures Mapped(r.s, p, w) == Mapped(s, p, w)
      {
        if p in s.roots {
          WalkElsewhere(s.mem, s.roots, role, s.roots[p], w, f, Cleared(At(s.mem, f)));
        } else {
          ClearedMapsNothing(s.mem, f, w);
        }
      }
    }
    hide Shaped, TreeOk, Allocate, NewTable, Ok;
  }

  /* ----- no frame is wasted ----- */

  /** Some page is mapped through table f. */
  ghost predicate LeadsToPage(role: Roles, f: nat)
    requires f in role && role[f].Inner?
  {
    exists d :: d in role && role[d].Page? && role[d].pid == role[f].pid && role[f].path <= role[d].path
  }

  /** Every frame is a root, a mapped page, or a table on the way to a mapped page. */
  ghost predicate Tidy(role: Roles) {
    forall f :: f in role ==> !role[f].Loose? && (role[f].Inner? && role[f].path != [] ==> LeadsToPage(role, f))
  }

  lemma {:induction false} GrownTidy(role: Roles, role': Roles, p: nat, path: seq<Index>, d: nat)
    requires Tidy(role) && d !in role && Grown(role, role', p, path, d)
    requires d in role' && role'[d].Page? && role'[d].pid == p && role'[d].path == path
    ensures Tidy(role')
  {
    forall f | f in role' && role'[f].Inner? && role'[f].path != []
      ensures LeadsToPage(role', f)
    {
      if f in role {
        assert LeadsToPage(role, f);
        var e :| e in role && role[e].Page? && role[e].pid == role[f].pid && role[f].path <= role[e].path;
        assert role'[e] == role[e];
      } else {
        assert role'[d].path == path;
      }
    }
  }
}
