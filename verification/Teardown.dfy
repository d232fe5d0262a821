/** Ending a process: its tables are released by walking its tree, then everything in its ledger. */
module Teardown {
  import opened Sv48
  import opened PageTable
  import opened Managers
  import opened Memory

  ghost function ReleaseMemory(m: Mgr, addr: nat, size: nat): Mgr {
    Release(m, addr, PagesFor(size))
  }

  ghost function ReleaseGrants(m: Mgr, gs: seq<Grant>): Mgr
    decreases |gs|
  {
    if gs == [] then m else ReleaseGrants(ReleaseMemory(m, gs[0].addr, gs[0].size), gs[1..])
  }

  /** The driver releases the tables of the process and forgets its root. */
  ghost function ReleasePageTable(s: State, pid: nat): State
    requires pid in s.roots
  {
    s.(mgr := ReleaseGrants(s.mgr, FrameGrants(ReleaseFrom(s.mem, s.roots[pid], 3, 0))), roots := s.roots - {pid})
  }

  /** The kernel then releases what it recorded for the process, inner tables included. */
  ghost function Terminate(s: State, pid: nat): State
    requires pid in s.roots
  {
    var s' := ReleasePageTable(s, pid);
    s'.(mgr := ReleaseGrants(s'.mgr, Entries(s.ledger, pid)), ledger := s.ledger - {pid})
  }

  lemma {:induction false} ReleaseGrantsAppend(m: Mgr, a: seq<Grant>, b: seq<Grant>)
    ensures ReleaseGrants(m, a + b) == ReleaseGrants(ReleaseGrants(m, a), b)
    decreases |a|
  {
    if a == [] {
      assert a + b == b;
    } else {
      assert (a + b)[1..] == a[1..] + b;
      ReleaseGrantsAppend(ReleaseMemory(m, a[0].addr, a[0].size), a[1..], b);
    }
  }

  lemma {:induction false} ReleaseNext(m: Mgr, gs: seq<Grant>, i: nat, next: nat)
    requires i < |gs| && next == i + 1
    ensures ReleaseGrants(m, gs[i..]) == ReleaseGrants(ReleaseMemory(m, gs[i].addr, gs[i].size), gs[next..])
  {
    assert gs[i..][1..] == gs[next..];
  }

  lemma ReleaseNone(m: Mgr, gs: seq<Grant>)
    ensures ReleaseGrants(m, gs[|gs|..]) == m
  {
  }

  lemma {:induction false} ReleaseFramesAppend(m: Mgr, a: seq<nat>, b: seq<nat>)
    ensures ReleaseGrants(m, FrameGrants(a + b)) == ReleaseGrants(ReleaseGrants(m, FrameGrants(a)), FrameGrants(b))
  {
    assert FrameGrants(a + b) == FrameGrants(a) + FrameGrants(b);
    ReleaseGrantsAppend(m, FrameGrants(a), FrameGrants(b));
  }

  function ToSet(fs: seq<nat>): set<nat> {
    set f | f in fs
  }

  /** How many releases of fs, in order, meet a page that is not live. */
  ghost function Misses(live: set<nat>, fs: seq<nat>): nat {
    if fs == [] then 0 else (if fs[0] in live then 0 else 1) + Misses(live - {fs[0]}, fs[1..])
  }

  /** The manager holds exactly the live frames, and its counter says so. */
  ghost predicate Holds(m: Mgr, live: set<nat>, twice: nat) {
    && Ok(m)
    && (forall f {:trigger Allocated(m, f)} :: f in live <==> Allocated(m, f))
    && Used(m) == CountOf(m.BitMgr?, |live|, twice)
  }

  lemma {:induction false} HoldsAfterOne(m: Mgr, live: set<nat>, twice: nat, f: nat)
    requires Holds(m, live, twice) && InRange(m, f)
    ensures var m' := Release(m, f * PAGE_SIZE, 1);
      && Holds(m', live - {f}, if f in live then twice else twice + 1) && Pages(m') == Pages(m)
          && m'.BitMgr? == m.BitMgr?
  {
    hide Release, Ok;
    ReleaseOne(m, f);
    var m' := Release(m, f * PAGE_SIZE, 1);
    forall g
      ensures g in live - {f} <==> Allocated(m', g)
    {
      assert g in live <==> Allocated(m, g);
    }
    assert f in live <==> Allocated(m, f);
    ModStep(if m.BitMgr? then |live| - twice else |live|);
  }

  /** Releasing frames one by one. */
  lemma {:induction false} HoldsAfter(m: Mgr, live: set<nat>, twice: nat, fs: seq<nat>)
    requires Holds(m, live, twice) && forall f :: f in fs ==> InRange(m, f)
    ensures var m' := ReleaseGrants(m, FrameGrants(fs));
      Pages(m') == Pages(m) && m'.BitMgr? == m.BitMgr? && Holds(m', live - ToSet(fs), twice + Misses(live, fs))
    decreases |fs|
  {
    hide Holds, Release, FrameGrants, ToSet;
    if fs == [] {
      NoneInSet();
      assert live - ToSet(fs) == live;
    } else {
      var f, rest := fs[0], fs[1..];
      HoldsAfterOne(m, live, twice, f);
      var m1 := Release(m, f * PAGE_SIZE, 1);
      var twice1 := if f in live then twice else twice + 1;
      FirstGrant(m, fs);
      assert forall g :: g in rest ==> g in fs;
      HoldsAfter(m1, live - {f}, twice1, rest);
      ToSetCons(fs);
      assert live - {f} - ToSet(rest) == live - ToSet(fs);
    }
  }

  lemma NotInSet(fs: seq<nat>, f: nat)
    requires f !in fs
    ensures f !in ToSet(fs)
  {
  }

  lemma NoneInSet()
    ensures ToSet([]) == {}
  {
  }

  lemma {:induction false} FirstGrant(m: Mgr, fs: seq<nat>)
    requires fs != []
    ensures ReleaseGrants(m, FrameGrants(fs)) == ReleaseGrants(Release(m, fs[0] * PAGE_SIZE, 1), FrameGrants(fs[1..]))
  {
    OnePage();
    assert FrameGrants(fs)[1..] == FrameGrants(fs[1..]);
  }

  lemma ToSetCons(fs: seq<nat>)
    requires fs != []
    ensures ToSet(fs) == {fs[0]} + ToSet(fs[1..])
  {
    assert fs == [fs[0]] + fs[1..];
  }

  lemma {:induction false} DistinctMisses(live: set<nat>, fs: seq<nat>)
    requires Distinct(fs)
    ensures Misses(live, fs) == |ToSet(fs) - live|
    decreases |fs|
  {
    hide ToSet;
    if fs == [] {
      NoneInSet();
      assert ToSet(fs) - live == {};
    } else {
      var f, rest := fs[0], fs[1..];
      NotInSet(rest, f);
      DistinctMisses(live - {f}, rest);
      assert ToSet(rest) - (live - {f}) == ToSet(rest) - live;
      ToSetCons(fs);
      assert ToSet(fs) - live == if f in live then ToSet(rest) - live else (ToSet(rest) - live) + {f};
    }
  }

  /** Roles once process p is gone. */
  ghost function Without(role: Roles, p: nat): Roles {
    map f | f in role && role[f].pid != p :: role[f]
  }

  ghost function TablesOf(role: Roles, p: nat): set<nat> {
    set f | f in role && role[f].Inner? && role[f].pid == p
  }

  lemma {:induction false} WithoutKeepsTree(mem: Ram, roots: map<nat, nat>, role: Roles, p: nat)
    requires TreeOk(mem, roots, role)
    ensures TreeOk(mem, roots - {p}, Without(role, p))
  {
    var role' := Without(role, p);
    forall f | f in role'
      ensures FrameOk(mem, roots - {p}, role', f)
    {
      assert FrameOk(mem, roots, role, f);
      if role[f].Inner? {
        forall i: Index
          ensures EntryOk(role', f, mem[f][i], i)
        {
          assert EntryOk(role, f, mem[f][i], i);
        }
      }
    }
  }

  lemma {:induction false} WithoutKeepsLedger(ledger: Ledger, roots: map<nat, nat>, role: Roles, p: nat)
    requires LedgerOk(ledger, roots, role)
    ensures LedgerOk(ledger - {p}, roots - {p}, Without(role, p))
  {
    var role' := Without(role, p);
    forall q | q in ledger - {p} && q != 0
      ensures EntriesOk(ledger - {p}, roots - {p}, role', q)
    {
      assert EntriesOk(ledger, roots, role, q);
    }
    forall f | f in role'
      ensures Listed(ledger - {p}, role', f)
    {
      assert Listed(ledger, role, f);
    }
  }

  /** The driver releases exactly the tables of p, each once. */
  lemma {:induction false} OrderIsTables(s: State, o: Account, p: nat)
    requires Sound(s, o) && p in s.roots
    ensures var fs := ReleaseFrom(s.mem, s.roots[p], 3, 0);
      Distinct(fs) && ToSet(fs) == TablesOf(o.role, p)
  {
    RootRole(s, o, p);
    OrderExact(s.mem, s.roots, o.role, s.roots[p], 3, 0);
    OrderedTables(s, o, p, ReleaseFrom(s.mem, s.roots[p], 3, 0));
  }

  lemma {:induction false} OrderedTables(s: State, o: Account, p: nat, fs: seq<nat>)
    requires Sound(s, o) && p in s.roots
    requires s.roots[p] in o.role && o.role[s.roots[p]] == Inner(p, [], 0) && OrderOk(o.role, s.roots[p], 0, fs)
    ensures ToSet(fs) == TablesOf(o.role, p)
  {
    forall g
      ensures g in ToSet(fs) <==> g in TablesOf(o.role, p)
    {
      if g in o.role && o.role[g].Inner? {
        assert FrameOk(s.mem, s.roots, o.role, g);
      }
    }
  }

  /** The frames in the ledger of p. */
  lemma {:induction false} LedgerFrames(s: State, o: Account, p: nat) returns (fs: seq<nat>)
    requires Sound(s, o) && p in s.roots
    ensures Entries(s.ledger, p) == FrameGrants(fs) && Distinct(fs)
    ensures ToSet(fs) == set f | f in o.role && o.role[f].pid == p && !IsRoot(o.role[f])
  {
    var gs := Entries(s.ledger, p);
    assert p in s.ledger ==> EntriesOk(s.ledger, s.roots, o.role, p);
    fs := seq(|gs|, k requires 0 <= k < |gs| => gs[k].addr / PAGE_SIZE);
    forall f | f in o.role && o.role[f].pid == p && !IsRoot(o.role[f])
      ensures f in fs
    {
      assert Listed(s.ledger, o.role, f);
      var k :| 0 <= k < |gs| && gs[k] == Frame(f);
      assert fs[k] == f;
    }
  }

  /** The account once process p is gone. */
  ghost function Closed(o: Account, p: nat): Account
    requires TablesOf(o.role, p) != {}
  {
    Account(Without(o.role, p), TwiceAfter(o, p), o.gone + 1)
  }

  /** The inner tables of p are released twice. */
  ghost function TwiceAfter(o: Account, p: nat): nat
    requires TablesOf(o.role, p) != {}
  {
    o.twice + |TablesOf(o.role, p)| - 1
  }

  lemma {:induction false} ClosedCounts(s: State, o: Account, p: nat)
    requires Sound(s, o) && p in s.roots
    ensures TablesOf(o.role, p) != {}
    ensures |Tables(Closed(o, p).role)| + Closed(o, p).twice + Closed(o, p).gone == |Tables(o.role)| + o.twice + o.gone
  {
    RootRole(s, o, p);
    assert s.roots[p] in TablesOf(o.role, p);
    assert Tables(o.role) == Tables(Without(o.role, p)) + TablesOf(o.role, p);
  }

  /** Ending p frees exactly the frames of p. Its inner tables are released twice, and that is all
      that is. */
  lemma {:induction false} TerminateKeeps(s: State, o: Account, p: nat)
    requires Sound(s, o) && p in s.roots
    ensures TablesOf(o.role, p) != {} && Sound(Terminate(s, p), Closed(o, p))
    ensures forall f :: Allocated(Terminate(s, p).mgr, f) <==> f in o.role && o.role[f].pid != p
  {
    hide TreeOk, LedgerOk, ReleaseGrants, ReleaseFrom, Without, TablesOf;
    ClosedCounts(s, o, p);
    WithoutKeepsTree(s.mem, s.roots, o.role, p);
    WithoutKeepsLedger(s.ledger, s.roots, o.role, p);
    ReleasedBoth(s, o, p);
    WithoutKeys(o.role, p);
  }

  lemma WithoutKeys(role: Roles, p: nat)
    ensures forall f :: f in Without(role, p) <==> f in role && role[f].pid != p
  {
  }

  lemma {:induction false} ReleasedBoth(s: State, o: Account, p: nat)
    requires Sound(s, o) && p in s.roots && TablesOf(o.role, p) != {}
    ensures var m := Terminate(s, p).mgr;
      && Holds(m, Without(o.role, p).Keys, TwiceAfter(o, p))
      && Pages(m) == Pages(s.mgr) && m.BitMgr? == s.mgr.BitMgr?
  {
    var order := ReleaseFrom(s.mem, s.roots[p], 3, 0);
    var fs := LedgerFrames(s, o, p);
    OrderIsTables(s, o, p);
    ReleasedSets(s, o, p, order, fs);
    TablesHaveRoles(o.role, p);
    ReleasedFrames(s, o, order, fs, Without(o.role, p).Keys, TwiceAfter(o, p));
  }

  lemma TablesHaveRoles(role: Roles, p: nat)
    ensures TablesOf(role, p) <= role.Keys
  {
  }

  lemma ListInRange(s: State, o: Account, fs: seq<nat>)
    requires Sound(s, o) && ToSet(fs) <= o.role.Keys
    ensures forall f :: f in fs ==> InRange(s.mgr, f)
  {
    AllInRange(s, o);
    assert forall f :: f in fs ==> f in ToSet(fs);
  }

  lemma {:induction false} SoundHolds(s: State, o: Account)
    requires Sound(s, o)
    ensures Holds(s.mgr, o.role.Keys, o.twice)
  {
  }

  /** The frames that stay, and how many of the second list were released already. */
  lemma {:induction false} ReleasedFrames(s: State, o: Account, order: seq<nat>, fs: seq<nat>, live: set<nat>,
          twice: nat)
    requires Sound(s, o) && Distinct(order) && Distinct(fs)
    requires ToSet(order) <= o.role.Keys && ToSet(fs) <= o.role.Keys
    requires live == o.role.Keys - ToSet(order) - ToSet(fs)
    requires twice == o.twice + |ToSet(fs) - (o.role.Keys - ToSet(order))|
    ensures var m := ReleaseGrants(ReleaseGrants(s.mgr, FrameGrants(order)), FrameGrants(fs));
      Holds(m, live, twice) && Pages(m) == Pages(s.mgr) && m.BitMgr? == s.mgr.BitMgr?
  {
    hide Sound, Holds, ToSet;
    SoundHolds(s, o);
    ListInRange(s, o, order);
    ListInRange(s, o, fs);
    HoldsTwice(s.mgr, o.role.Keys, o.twice, order, fs);
  }

  /** Live frames released once each, and then a second list of distinct frames. */
  lemma {:induction false} HoldsTwice(m: Mgr, live: set<nat>, twice: nat, fs: seq<nat>, gs: seq<nat>)
    requires Holds(m, live, twice) && Distinct(fs) && Distinct(gs) && ToSet(fs) <= live
    requires (forall f :: f in fs ==> InRange(m, f)) && (forall g :: g in gs ==> InRange(m, g))
    ensures var m' := ReleaseGrants(ReleaseGrants(m, FrameGrants(fs)), FrameGrants(gs));
      && Holds(m', live - ToSet(fs) - ToSet(gs), twice + |ToSet(gs) - (live - ToSet(fs))|)
      && Pages(m') == Pages(m) && m'.BitMgr? == m.BitMgr?
  {
    DistinctMisses(live, fs);
    assert ToSet(fs) - live == {};
    HoldsAfter(m, live, twice, fs);
    DistinctMisses(live - ToSet(fs), gs);
    HoldsAfter(ReleaseGrants(m, FrameGrants(fs)), live - ToSet(fs), twice, gs);
  }

  lemma {:induction false} ReleasedSets(s: State, o: Account, p: nat, order: seq<nat>, fs: seq<nat>)
    requires Sound(s, o) && p in s.roots && ToSet(order) == TablesOf(o.role, p)
    requires ToSet(fs) == set f | f in o.role && o.role[f].pid == p && !IsRoot(o.role[f])
    ensures |ToSet(fs) - (o.role.Keys - ToSet(order))| == |TablesOf(o.role, p)| - 1
    ensures o.role.Keys - ToSet(order) - ToSet(fs) == Without(o.role, p).Keys
  {
    var live, tables := o.role.Keys, TablesOf(o.role, p);
    RootRole(s, o, p);
    forall f | f in tables
      ensures IsRoot(o.role[f]) <==> f == s.roots[p]
    {
      assert FrameOk(s.mem, s.roots, o.role, f);
    }
    assert ToSet(fs) - (live - tables) == tables - {s.roots[p]};
    forall f
      ensures f in live - tables - ToSet(fs) <==> f in Without(o.role, p).Keys
    {
    }
  }

  lemma {:induction false} AllInRange(s: State, o: Account)
    requires Sound(s, o)
    ensures forall f :: f in o.role ==> InRange(s.mgr, f)
  {
    forall f | f in o.role
      ensures InRange(s.mgr, f)
    {
      assert FrameOk(s.mem, s.roots, o.role, f);
    }
  }

  lemma SubsetCard(a: set<nat>, b: set<nat>)
    requires a <= b
    ensures |a| <= |b| && (|a| == |b| ==> a == b)
  {
    assert b == a + (b - a);
  }

  lemma DifferenceCard(a: set<nat>, b: set<nat>)
    requires a <= b
    ensures |b - a| == |b| - |a|
  {
    assert b == a + (b - a);
  }

  /** There are no more roles than pages. */
  lemma {:induction false} RolesFit(s: State, o: Account)
    requires Sound(s, o)
    ensures |o.role| <= Pages(s.mgr) <= MAX_PAGES
    ensures |Tables(o.role)| <= |o.role| && forall p :: |TablesOf(o.role, p)| <= |o.role|
  {
    AllInRange(s, o);
    assert o.role.Keys <= FrameRange(Pages(s.mgr));
    SubsetCard(o.role.Keys, FrameRange(Pages(s.mgr)));
    SubsetCard(Tables(o.role), o.role.Keys);
    forall p
      ensures |TablesOf(o.role, p)| <= |o.role|
    {
      SubsetCard(TablesOf(o.role, p), o.role.Keys);
    }
  }

  lemma {:induction false} WithoutTidy(role: Roles, p: nat)
    requires Tidy(role)
    ensures Tidy(Without(role, p))
  {
    var role' := Without(role, p);
    forall f | f in role' && role'[f].Inner? && role'[f].path != []
      ensures LeadsToPage(role', f)
    {
      assert LeadsToPage(role, f);
      var e :| e in role && role[e].Page? && role[e].pid == role[f].pid && role[f].path <= role[e].path;
      assert e in role';
    }
  }

  /* ----- the end of the kernel ----- */

  ghost function TerminateAll(s: State, pids: seq<nat>): State
    requires Distinct(pids) && forall p :: p in pids ==> p in s.roots
    decreases |pids|
  {
    if pids == [] then s
    else
      assert pids[0] in s.roots && forall p :: p in pids[1..] ==> p in pids && p != pids[0];
      TerminateAll(Terminate(s, pids[0]), pids[1..])
  }

  lemma {:induction false} NothingLeft(s: State, o: Account)
    requires Sound(s, o) && s.roots == map[]
    ensures o.role == map[]
  {
    forall f
      ensures f !in o.role
    {
      assert f in o.role ==> FrameOk(s.mem, s.roots, o.role, f);
    }
  }

  /** Ending all processes leaves no frame allocated; each is counted as gone. */
  lemma {:induction false} TerminateAllEmpties(s: State, o: Account, pids: seq<nat>) returns (o': Account)
    requires Sound(s, o) && Distinct(pids) && forall p :: p in pids <==> p in s.roots
    ensures Sound(TerminateAll(s, pids), o') && o'.role == map[] && o'.gone == o.gone + |pids|
    ensures TerminateAll(s, pids).mgr.BitMgr? == s.mgr.BitMgr? && TerminateAll(s, pids).bytes == s.bytes
    decreases |pids|
  {
    hide Sound, Terminate, Without, TablesOf;
    if pids == [] {
      assert s.roots == map[];
      NothingLeft(s, o);
      o' := o;
    } else {
      var p := pids[0];
      assert p in pids;
      TerminateKeeps(s, o, p);
      TerminateKind(s, p);
      var s1 := Terminate(s, p);
      assert pids == [p] + pids[1..];
      forall q
        ensures q in pids[1..] <==> q in s1.roots
      {
        assert q in pids <==> q in s.roots;
      }
      o' := TerminateAllEmpties(s1, Closed(o, p), pids[1..]);
    }
  }

  lemma {:induction false} GrantsKind(m: Mgr, gs: seq<Grant>)
    ensures ReleaseGrants(m, gs).BitMgr? == m.BitMgr?
    decreases |gs|
  {
    if gs == [] {
    } else {
      GrantsKind(ReleaseMemory(m, gs[0].addr, gs[0].size), gs[1..]);
    }
  }

  lemma {:induction false} TerminateKind(s: State, p: nat)
    requires p in s.roots
    ensures Terminate(s, p).mgr.BitMgr? == s.mgr.BitMgr?
    ensures Terminate(s, p).roots == s.roots - {p} && Terminate(s, p).mem == s.mem && Terminate(s, p).bytes == s.bytes
  {
    GrantsKind(s.mgr, FrameGrants(ReleaseFrom(s.mem, s.roots[p], 3, 0)));
    GrantsKind(ReleasePageTable(s, p).mgr, Entries(s.ledger, p));
  }
}
