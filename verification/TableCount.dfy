/** How many tables a process owns, counted from the pages it maps. */
module TableCount {
  import opened Sv48
  import opened PageTable
  import opened Memory
  import opened Kernel
  import opened Runs
  import Teardown
  import Tlb

  /** The virtual pages process p maps. */
  ghost function MappedPages(s: Memory.State, p: nat): set<nat> {
    set v | 0 <= v < 0x10_0000_0000 && Mapped(s, p, MmuPath(v)).Some?
  }

  /** Which stretches of span pages hold a mapped page. */
  ghost function Stretches(s: Memory.State, p: nat, span: nat): set<nat>
    requires span > 0
  {
    set v | v in MappedPages(s, p) :: Stretch(v, span)
  }

  function Stretch(v: nat, span: nat): nat
    requires span > 0
  {
    v / span
  }

  /** The number a path spells in base 512. */
  function Value(path: seq<Index>): nat {
    if path == [] then 0 else Value(path[..|path| - 1]) * 512 + path[|path| - 1]
  }

  lemma {:induction false} ValueInjective(a: seq<Index>, b: seq<Index>)
    requires |a| == |b| && Value(a) == Value(b)
    ensures a == b
  {
    if a == [] {
    } else {
      var k := |a| - 1;
      assert a[k] == Value(a) % 512 && b[k] == Value(b) % 512;
      ValueInjective(a[..k], b[..k]);
      assert a == a[..k] + [a[k]] && b == b[..k] + [b[k]];
    }
  }

  /** Pages per table at depth j: 2^27, 2^18 and 2^9 below the root. */
  function SpanAt(j: nat): (s: nat)
    requires 1 <= j <= 4
    ensures s > 0
  {
    Span(4 - j)
  }

  lemma {:induction false} PrefixValue(v: nat, j: nat)
    requires v < 0x10_0000_0000 && 1 <= j <= 4
    ensures Value(MmuPath(v)[..j]) == v / SpanAt(j)
    decreases j
  {
    var w := MmuPath(v);
    assert w[..j] == w[..j - 1] + [w[j - 1]];
    SnocParts(w[..j - 1], w[j - 1]);
    assert Value(w[..j]) == Value(w[..j - 1]) * 512 + w[j - 1];
    if j == 1 {
      assert w[..0] == [];
    } else {
      PrefixValue(v, j - 1);
      DivDiv(v, SpanAt(j), 512, SpanAt(j - 1));
    }
  }

  /** Every full path is the path of a page. */
  lemma {:induction false} PageOfPath(w: seq<Index>) returns (v: nat)
    requires |w| == 4
    ensures v < 0x10_0000_0000 && MmuPath(v) == w
  {
    v := Value(w);
    assert w[..3] == w[..2] + [w[2]] && w[..2] == w[..1] + [w[1]] && w[..1] == [] + [w[0]];
    SnocParts(w[..2], w[2]);
    SnocParts(w[..1], w[1]);
    SnocParts([], w[0]);
    assert Value(w[..1]) == w[0];
    assert Value(w[..2]) == Value(w[..1]) * 512 + w[1];
    assert Value(w[..3]) == Value(w[..2]) * 512 + w[2];
    assert v == ((w[0] as nat * 512 + w[1]) * 512 + w[2]) * 512 + w[3];
    assert v / 512 == (w[0] as nat * 512 + w[1]) * 512 + w[2];
    DivDiv(v, 0x200, 0x200, 0x4_0000);
    DivDiv(v, 0x4_0000, 0x200, 0x800_0000);
    assert MmuPath(v) == [w[0], w[1], w[2], w[3]];
  }

  /** The tables of p at depth j. */
  ghost function Depth(role: Roles, p: nat, j: nat): set<nat> {
    set f | f in role && role[f].Inner? && role[f].pid == p && |role[f].path| == j
  }

  ghost function Values(role: Roles, fs: set<nat>): set<nat>
    requires forall f :: f in fs ==> f in role && role[f].Inner?
  {
    set f | f in fs :: Value(role[f].path)
  }

  lemma {:induction false} ValuesCard(role: Roles, fs: set<nat>)
    requires forall f :: f in fs ==> f in role && role[f].Inner?
    requires forall f, g :: f in fs && g in fs && Value(role[f].path) == Value(role[g].path) ==> f == g
    ensures |Values(role, fs)| == |fs|
  {
    if fs == {} {
      assert Values(role, fs) == {};
    } else {
      var f :| f in fs;
      ValuesCard(role, fs - {f});
      assert Values(role, fs) == Values(role, fs - {f}) + {Value(role[f].path)};
    }
  }

  /** A table on the way to a mapped page exists at each depth. */
  lemma {:induction false} DescendPrefix(mem: Ram, f: nat, path: seq<Index>, j: nat)
    requires j <= |path| && Descend(mem, f, path).Some?
    ensures Descend(mem, f, path[..j]).Some?
    decreases |path|
  {
    if j == 0 {
    } else {
      assert path[..j][1..] == path[1..][..j - 1];
      DescendPrefix(mem, At(mem, f)[path[0]].ppn, path[1..], j - 1);
    }
  }

  lemma {:induction false} TableAbovePage(s: Memory.State, o: Account, p: nat, v: nat, j: nat) returns (f: nat)
    requires Sound(s, o) && p in s.roots && v in MappedPages(s, p) && 1 <= j <= 3
    ensures f in Depth(o.role, p, j) && o.role[f].path == MmuPath(v)[..j]
  {
    var w := MmuPath(v);
    RootRole(s, o, p);
    WalkByDescend(s.mem, s.roots, o.role, s.roots[p], w);
    DescendPrefix(s.mem, s.roots[p], w[..3], j);
    assert w[..3][..j] == w[..j];
    DescendRole(s.mem, s.roots, o.role, s.roots[p], w[..j]);
    f := Descend(s.mem, s.roots[p], w[..j]).value;
    assert [] + w[..j] == w[..j];
  }

  lemma {:induction false} PageBelowTable(s: Memory.State, o: Account, p: nat, f: nat, j: nat) returns (v: nat)
    requires Sound(s, o) && Tidy(o.role) && 1 <= j <= 3 && f in Depth(o.role, p, j)
    ensures v in MappedPages(s, p) && o.role[f].path == MmuPath(v)[..j]
  {
    assert LeadsToPage(o.role, f);
    var d :| d in o.role && o.role[d].Page? && o.role[d].pid == p && o.role[f].path <= o.role[d].path;
    assert FrameOk(s.mem, s.roots, o.role, d);
    RoleFrameAt(s, o, d);
    v := PageOfPath(o.role[d].path);
  }

  /** At each depth below the root, one table per stretch of pages that is used. */
  lemma {:induction false} DepthCount(s: Memory.State, o: Account, p: nat, j: nat)
    requires Sound(s, o) && Tidy(o.role) && p in s.roots && 1 <= j <= 3
    ensures |Depth(o.role, p, j)| == |Stretches(s, p, SpanAt(j))|
  {
    var fs := Depth(o.role, p, j);
    forall f, g | f in fs && g in fs && Value(o.role[f].path) == Value(o.role[g].path)
      ensures f == g
    {
      ValueInjective(o.role[f].path, o.role[g].path);
      TableUnique(s.mem, s.roots, o.role, f, g);
    }
    ValuesCard(o.role, fs);
    forall x | x in Values(o.role, fs)
      ensures x in Stretches(s, p, SpanAt(j))
    {
      var f :| f in fs && Value(o.role[f].path) == x;
      var v := PageBelowTable(s, o, p, f, j);
      PrefixValue(v, j);
    }
    forall x | x in Stretches(s, p, SpanAt(j))
      ensures x in Values(o.role, fs)
    {
      var v :| v in MappedPages(s, p) && v / SpanAt(j) == x;
      var f := TableAbovePage(s, o, p, v, j);
      PrefixValue(v, j);
    }
    assert Values(o.role, fs) == Stretches(s, p, SpanAt(j));
  }

  /** While memory has not run out, a process owns its root and one table for each used stretch of
      2^27, 2^18 and 2^9 pages: no table is missing and none is idle. */
  lemma {:induction false} ExactTableCount(s: Memory.State, o: Account, p: nat)
    requires Sound(s, o) && Tidy(o.role) && p in s.roots
    ensures var tables := Teardown.TablesOf(o.role, p);
      && (forall f :: f in tables <==> exists path :: TableAt(s, p, path) == Some(f))
      && |tables| == 1 + |Stretches(s, p, 0x800_0000)| + |Stretches(s, p, 0x4_0000)| + |Stretches(s, p, 0x200)|
  {
    var tables := Teardown.TablesOf(o.role, p);
    RootRole(s, o, p);
    forall f
      ensures f in tables <==> exists path :: TableAt(s, p, path) == Some(f)
    {
      if f in tables {
        RoleFrameAt(s, o, f);
        assert FrameOk(s.mem, s.roots, o.role, f);
        assert TableAt(s, p, o.role[f].path) == Some(f);
      }
      if path :| TableAt(s, p, path) == Some(f) {
        FrameAtRole(s, o, p, path);
        DescendRole(s.mem, s.roots, o.role, s.roots[p], path);
      }
    }
    DepthCount(s, o, p, 1);
    DepthCount(s, o, p, 2);
    DepthCount(s, o, p, 3);
    DepthsMakeUp(s, o, p);
  }

  lemma {:induction false} DepthsMakeUp(s: Memory.State, o: Account, p: nat)
    requires Sound(s, o) && p in s.roots
    ensures |Teardown.TablesOf(o.role, p)| ==
            1 + |Depth(o.role, p, 1)| + |Depth(o.role, p, 2)| + |Depth(o.role, p, 3)|
  {
    RootRole(s, o, p);
    var tables := Teardown.TablesOf(o.role, p);
    forall f | f in tables
      ensures |o.role[f].path| <= 3 && (o.role[f].path == [] <==> f == s.roots[p])
    {
      assert FrameOk(s.mem, s.roots, o.role, f);
    }
    assert tables == {s.roots[p]} + Depth(o.role, p, 1) + Depth(o.role, p, 2) + Depth(o.role, p, 3);
    assert {s.roots[p]} !! Depth(o.role, p, 1) !! Depth(o.role, p, 2) !! Depth(o.role, p, 3);
    hide Teardown.TablesOf, Depth, Sound;
  }

  /** The exact count holds in every state of every run from boot in which memory has not run out. */
  lemma {:induction false} TablesOverRuns(cfg: Config, s: Memory.State, pids: seq<nat>, slots: seq<Tlb.Slot>,
          es: seq<Event>, p: nat)
    returns (tables: set<nat>)
    requires FreshMemory(s) && Distinct(pids) && 0 !in pids && slots != [] && BootTables(s, pids).Done?
    requires NoTrap(Runs.Answers(FreshMachine(cfg, BootTables(s, pids).s, pids, slots), es))
    requires p in Run(FreshMachine(cfg, BootTables(s, pids).s, pids, slots), es).mm.roots
    ensures var s' := Run(FreshMachine(cfg, BootTables(s, pids).s, pids, slots), es).mm;
      && (forall f :: f in tables <==> exists path :: TableAt(s', p, path) == Some(f))
      && |tables| == 1 + |Stretches(s', p, 0x800_0000)| + |Stretches(s', p, 0x4_0000)| + |Stretches(s', p, 0x200)|
  {
    var o := Boot(cfg, s, pids, slots);
    var k := FreshMachine(cfg, BootTables(s, pids).s, pids, slots);
    var o' := RunKeeps(k, o, es);
    ExactTableCount(Run(k, es).mm, o', p);
    tables := Teardown.TablesOf(o'.role, p);
  }
}
