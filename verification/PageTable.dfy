/** Page tables as they lie in RAM: entries, the table walk, and the shape every set of trees keeps. */
module PageTable {
  import opened Sv48

  /** The fields of a table entry that translation looks at; ppn has 44 bits. */
  datatype Entry = Entry(valid: bool, read: bool, ppn: nat)

  type Table = t: seq<Entry> | |t| == 512 witness seq(512, _ => Entry(false, false, 0))

  /** RAM, by frame number. */
  type Ram = map<nat, Table>

  /** Reading outside RAM is undefined in the program; here it finds no valid entry. */
  function At(mem: Ram, f: nat): Table {
    if f in mem then mem[f] else seq(512, _ => Entry(false, false, 0))
  }

  /** Clearing a fresh table resets the valid bits and nothing else. */
  function Cleared(t: Table): Table {
    seq(512, i requires 0 <= i < 512 => t[i].(valid := false))
  }

  function Leaf(f: nat): Entry { Entry(true, true, f % TWO_44) }
  function Pointer(f: nat): Entry { Entry(true, false, f % TWO_44) }

  function SetEntry(mem: Ram, t: nat, i: Index, e: Entry): Ram {
    mem[t := At(mem, t)[i := e]]
  }

  /** The hardware walk: one index per level, stopping at the first readable entry. */
  function Walk(mem: Ram, f: nat, idx: seq<Index>): Option<nat>
    decreases |idx|
  {
    if idx == [] then None
    else
      var e := At(mem, f)[idx[0]];
      if !e.valid then None
      else if e.read then Some(e.ppn)
      else Walk(mem, e.ppn, idx[1..])
  }

  /** The table reached from table f by following path through pointer entries. */
  function Descend(mem: Ram, f: nat, path: seq<Index>): Option<nat>
    decreases |path|
  {
    if path == [] then Some(f)
    else
      var e := At(mem, f)[path[0]];
      if e.valid && !e.read then Descend(mem, e.ppn, path[1..]) else None
  }

  /** What an allocated frame is for: a table at some path of a process's tree, a data page at a
      full path, or a frame charged to a process that no table entry points to. */
  datatype Role =
    | Inner(pid: nat, path: seq<Index>, up: nat)
    | Page(pid: nat, path: seq<Index>, up: nat)
    | Loose(pid: nat)

  type Roles = map<nat, Role>

  /** A valid entry of table f points to a frame whose role names exactly this entry. */
  ghost predicate EntryOk(own: Roles, f: nat, e: Entry, i: Index)
    requires f in own && own[f].Inner?
  {
    e.valid ==>
      && e.ppn in own
      && (e.read <==> |own[f].path| == 3)
      && own[e.ppn] == if e.read then Page(own[f].pid, own[f].path + [i], f)
                                 else Inner(own[f].pid, own[f].path + [i], f)
  }

  /** The table named by the role of f has a valid entry that points to f. */
  ghost predicate Linked(mem: Ram, own: Roles, f: nat)
    requires f in own && !own[f].Loose? && own[f].path != []
  {
    var r := own[f];
    var k := |r.path| - 1;
    && r.up in own && r.up in mem && own[r.up].Inner?
    && own[r.up].pid == r.pid && own[r.up].path == r.path[..k]
    && mem[r.up][r.path[k]] == Entry(true, r.Page?, f)
  }

  ghost predicate FrameOk(mem: Ram, roots: map<nat, nat>, own: Roles, f: nat)
    requires f in own
  {
    && f in mem && f < TWO_44 && own[f].pid in roots
    && match own[f]
       case Loose(_) => true
       case Page(_, path, _) => |path| == 4 && Linked(mem, own, f)
       case Inner(p, path, up) =>
         && |path| <= 3
         && (if path == [] then roots[p] == f && up == 0 else Linked(mem, own, f))
         && forall i: Index {:trigger EntryOk(own, f, mem[f][i], i)} :: EntryOk(own, f, mem[f][i], i)
  }

  /** Every root and every allocated frame is where its role says, and nowhere else. */
  ghost predicate TreeOk(mem: Ram, roots: map<nat, nat>, own: Roles) {
    && (forall p :: p in roots ==> roots[p] in own && own[roots[p]] == Inner(p, [], 0))
    && (forall f {:trigger FrameOk(mem, roots, own, f)} :: f in own ==> FrameOk(mem, roots, own, f))
  }

  lemma SnocParts<T>(s: seq<T>, x: T)
    ensures (s + [x])[..|s + [x]| - 1] == s && (s + [x])[|s + [x]| - 1] == x
  {
  }

  /** RAM after linking frame c, cleared, under entry i of table t. */
  function Linking(mem: Ram, t: nat, i: Index, c: nat): Ram {
    SetEntry(mem[c := Cleared(At(mem, c))], t, i, Pointer(c))
  }

  function LinkRole(own: Roles, t: nat, i: Index, c: nat): Roles
    requires t in own && own[t].Inner?
  {
    own[c := Inner(own[t].pid, own[t].path + [i], t)]
  }

  lemma {:induction false} LinkKeepsFrame(mem: Ram, roots: map<nat, nat>, own: Roles, t: nat, i: Index, c: nat, f: nat)
    requires TreeOk(mem, roots, own)
    requires t in own && own[t].Inner? && |own[t].path| < 3 && !At(mem, t)[i].valid
    requires c in own && own[c] == Loose(own[t].pid)
    requires f in own
    ensures FrameOk(Linking(mem, t, i, c), roots, LinkRole(own, t, i, c), f)
  {
    var mem', own' := Linking(mem, t, i, c), LinkRole(own, t, i, c);
    assert FrameOk(mem, roots, own, t) && FrameOk(mem, roots, own, c) && FrameOk(mem, roots, own, f);
    SnocParts(own[t].path, i);
    assert mem'[t] == mem[t][i := Entry(true, false, c)];
    if f == c {
      assert Linked(mem', own', c);
      assert forall j: Index :: EntryOk(own', c, mem'[c][j], j);
    } else if own[f].Inner? {
      forall j: Index
        ensures EntryOk(own', f, mem'[f][j], j)
      {
        assert EntryOk(own, f, mem[f][j], j);
      }
    }
  }

  /** Linking a cleared loose frame under an invalid entry keeps every tree well shaped. */
  lemma {:induction false} LinkKeepsTree(mem: Ram, roots: map<nat, nat>, own: Roles, t: nat, i: Index, c: nat)
    requires TreeOk(mem, roots, own)
    requires t in own && own[t].Inner? && |own[t].path| < 3 && !At(mem, t)[i].valid
    requires c in own && own[c] == Loose(own[t].pid)
    ensures TreeOk(Linking(mem, t, i, c), roots, LinkRole(own, t, i, c))
  {
    forall f | f in own
      ensures FrameOk(Linking(mem, t, i, c), roots, LinkRole(own, t, i, c), f)
    {
      LinkKeepsFrame(mem, roots, own, t, i, c, f);
    }
  }

  /** Roles after entry i of the leaf table t is pointed at d; a page mapped there becomes loose. */
  function LeafRole(own: Roles, t: nat, i: Index, e: Entry, d: nat): Roles
    requires t in own && own[t].Inner?
  {
    (if e.valid then own[e.ppn := Loose(own[t].pid)] else own)[d := Page(own[t].pid, own[t].path + [i], t)]
  }

  lemma {:induction false} LeafKeepsFrame(mem: Ram, roots: map<nat, nat>, own: Roles, t: nat, i: Index, d: nat, f: nat)
    requires TreeOk(mem, roots, own)
    requires t in own && own[t].Inner? && |own[t].path| == 3
    requires d in own && own[d] == Loose(own[t].pid)
    requires f in own
    ensures f in LeafRole(own, t, i, At(mem, t)[i], d)
    ensures FrameOk(SetEntry(mem, t, i, Leaf(d)), roots, LeafRole(own, t, i, At(mem, t)[i], d), f)
  {
    assert FrameOk(mem, roots, own, t) && FrameOk(mem, roots, own, d) && FrameOk(mem, roots, own, f);
    var mem', own' := SetEntry(mem, t, i, Leaf(d)), LeafRole(own, t, i, At(mem, t)[i], d);
    var was := mem[t][i];
    SnocParts(own[t].path, i);
    assert EntryOk(own, t, was, i);
    assert mem'[t] == mem[t][i := Entry(true, true, d)];
    if f == d {
      assert Linked(mem', own', d);
    } else if was.valid && f == was.ppn {
      assert own'[f].Loose?;
    } else if own[f].Inner? {
      forall j: Index
        ensures EntryOk(own', f, mem'[f][j], j)
      {
        assert EntryOk(own, f, mem[f][j], j);
        SnocParts(own[f].path, j);
      }
    }
  }

  lemma LeafKeepsRoots(roots: map<nat, nat>, own: Roles, t: nat, i: Index, e: Entry, d: nat)
    requires forall p :: p in roots ==> roots[p] in own && own[roots[p]] == Inner(p, [], 0)
    requires t in own && own[t].Inner? && (e.valid ==> e.ppn in own && own[e.ppn].Page?) && d in own && own[d].Loose?
    ensures forall p :: p in roots ==> roots[p] in own && LeafRole(own, t, i, e, d)[roots[p]] == Inner(p, [], 0)
  {
  }

  /** Making a loose frame the target of a leaf entry keeps every tree well shaped. */
  lemma {:induction false} LeafKeepsTree(mem: Ram, roots: map<nat, nat>, own: Roles, t: nat, i: Index, d: nat)
    requires TreeOk(mem, roots, own)
    requires t in own && own[t].Inner? && |own[t].path| == 3
    requires d in own && own[d] == Loose(own[t].pid)
    ensures TreeOk(SetEntry(mem, t, i, Leaf(d)), roots, LeafRole(own, t, i, At(mem, t)[i], d))
    ensures LeafRole(own, t, i, At(mem, t)[i], d).Keys == own.Keys
  {
    var own' := LeafRole(own, t, i, At(mem, t)[i], d);
    assert FrameOk(mem, roots, own, t) && EntryOk(own, t, mem[t][i], i);
    assert own'.Keys == own.Keys;
    forall f | f in own'
      ensures FrameOk(SetEntry(mem, t, i, Leaf(d)), roots, own', f)
    {
      LeafKeepsFrame(mem, roots, own, t, i, d, f);
    }
    LeafKeepsRoots(roots, own, t, i, At(mem, t)[i], d);
  }

  /** A process has one table per path. */
  lemma {:induction false} TableUnique(mem: Ram, roots: map<nat, nat>, own: Roles, f: nat, g: nat)
    requires TreeOk(mem, roots, own)
    requires f in own && g in own && own[f].Inner? && own[g].Inner?
    requires own[f].pid == own[g].pid && own[f].path == own[g].path
    ensures f == g
    decreases |own[f].path|
  {
    assert FrameOk(mem, roots, own, f) && FrameOk(mem, roots, own, g);
    if own[f].path == [] {
    } else {
      TableUnique(mem, roots, own, own[f].up, own[g].up);
    }
  }

  /** Following a path one step further. */
  lemma {:induction false} DescendSnoc(mem: Ram, f: nat, path: seq<Index>, i: Index)
    ensures Descend(mem, f, path + [i]) ==
            match Descend(mem, f, path)
            case None => None
            case Some(g) =>
              var e := At(mem, g)[i];
              if e.valid && !e.read then Some(e.ppn) else None
    decreases |path|
  {
    if path == [] {
    } else {
      var e := At(mem, f)[path[0]];
      assert (path + [i])[1..] == path[1..] + [i];
      if e.valid && !e.read {
        DescendSnoc(mem, e.ppn, path[1..], i);
      }
    }
  }

  /** Every table is reached from each of its ancestors along the rest of its path. */
  lemma {:induction false} TableReached(mem: Ram, roots: map<nat, nat>, own: Roles, f: nat, t: nat)
    requires TreeOk(mem, roots, own)
    requires f in own && t in own && own[f].Inner? && own[t].Inner?
    requires own[f].pid == own[t].pid && own[f].path <= own[t].path
    ensures Descend(mem, f, own[t].path[|own[f].path|..]) == Some(t)
    decreases |own[t].path|
  {
    assert FrameOk(mem, roots, own, t);
    var k, n := |own[f].path|, |own[t].path|;
    if k == n {
      TableUnique(mem, roots, own, f, t);
    } else {
      var u := own[t].up;
      TableReached(mem, roots, own, f, u);
      assert own[t].path[k..] == own[u].path[k..] + [own[t].path[n - 1]];
      DescendSnoc(mem, f, own[u].path[k..], own[t].path[n - 1]);
    }
  }

  /** Following a path from a table only meets tables of the same process, at the path followed. */
  lemma {:induction false} DescendRole(mem: Ram, roots: map<nat, nat>, own: Roles, f: nat, path: seq<Index>)
    requires TreeOk(mem, roots, own)
    requires f in own && own[f].Inner? && |own[f].path| + |path| <= 3
    ensures var g := Descend(mem, f, path);
      g.Some? ==> g.value in own && own[g.value].Inner? && own[g.value].pid == own[f].pid
                  && own[g.value].path == own[f].path + path
    decreases |path|
  {
    assert FrameOk(mem, roots, own, f);
    if path == [] {
    } else {
      var e := mem[f][path[0]];
      assert EntryOk(own, f, e, path[0]);
      if e.valid && !e.read {
        DescendRole(mem, roots, own, e.ppn, path[1..]);
        assert own[f].path + path == own[f].path + [path[0]] + path[1..];
      }
    }
  }

  /** A walk that succeeds ends in the page whose role is the path walked. */
  lemma {:induction false} WalkRole(mem: Ram, roots: map<nat, nat>, own: Roles, f: nat, idx: seq<Index>)
    requires TreeOk(mem, roots, own)
    requires f in own && own[f].Inner? && |own[f].path| + |idx| == 4
    ensures var d := Walk(mem, f, idx);
      d.Some? ==> d.value in own && own[d.value].Page? && own[d.value].pid == own[f].pid
                  && own[d.value].path == own[f].path + idx
    decreases |idx|
  {
    assert FrameOk(mem, roots, own, f);
    var e := mem[f][idx[0]];
    assert EntryOk(own, f, e, idx[0]);
    if e.valid && !e.read {
      WalkRole(mem, roots, own, e.ppn, idx[1..]);
      assert own[f].path + idx == own[f].path + [idx[0]] + idx[1..];
    }
  }

  /** Walking is descending to the leaf table and reading its entry. */
  lemma {:induction false} WalkByDescend(mem: Ram, roots: map<nat, nat>, own: Roles, f: nat, idx: seq<Index>)
    requires TreeOk(mem, roots, own)
    requires f in own && own[f].Inner? && |own[f].path| + |idx| == 4 && idx != []
    ensures Walk(mem, f, idx) ==
            match Descend(mem, f, idx[..|idx| - 1])
            case None => None
            case Some(t) =>
              var e := At(mem, t)[idx[|idx| - 1]];
              if e.valid then Some(e.ppn) else None
    decreases |idx|
  {
    assert FrameOk(mem, roots, own, f);
    var e := mem[f][idx[0]];
    assert EntryOk(own, f, e, idx[0]);
    if |idx| == 1 {
    } else {
      assert idx[..|idx| - 1][1..] == idx[1..][..|idx| - 2];
      if e.valid {
        WalkByDescend(mem, roots, own, e.ppn, idx[1..]);
      }
    }
  }

  /** Linking a cleared table changes no walk. */
  lemma {:induction false} LinkKeepsWalk(mem: Ram, roots: map<nat, nat>, own: Roles, t: nat, i: Index, c: nat, f: nat,
          idx: seq<Index>)
    requires TreeOk(mem, roots, own)
    requires t in own && own[t].Inner? && |own[t].path| < 3 && !At(mem, t)[i].valid
    requires c in own && own[c] == Loose(own[t].pid)
    requires f in own && own[f].Inner? && |own[f].path| + |idx| == 4
    ensures Walk(Linking(mem, t, i, c), f, idx) == Walk(mem, f, idx)
    decreases |idx|
  {
    var mem' := Linking(mem, t, i, c);
    assert FrameOk(mem, roots, own, t) && FrameOk(mem, roots, own, c) && FrameOk(mem, roots, own, f);
    assert EntryOk(own, f, mem[f][idx[0]], idx[0]);
    var e := At(mem, f)[idx[0]];
    if f == t && idx[0] == i {
      assert At(mem', t)[i] == Entry(true, false, c);
      assert Walk(mem', c, idx[1..]) == None;
    } else {
      assert At(mem', f)[idx[0]] == e;
      if e.valid && !e.read {
        LinkKeepsWalk(mem, roots, own, t, i, c, e.ppn, idx[1..]);
      }
    }
  }

  /** Writing a leaf entry is a point update of the walk: one path of one process, nothing else. */
  lemma {:induction false} LeafUpdatesWalk(mem: Ram, roots: map<nat, nat>, own: Roles, t: nat, i: Index, d: nat, f: nat,
          idx: seq<Index>)
    requires TreeOk(mem, roots, own)
    requires t in own && own[t].Inner? && |own[t].path| == 3 && d < TWO_44
    requires f in own && own[f].Inner? && |own[f].path| + |idx| == 4
    ensures Walk(SetEntry(mem, t, i, Leaf(d)), f, idx) ==
            if own[f].pid == own[t].pid && own[f].path + idx == own[t].path + [i] then Some(d)
            else Walk(mem, f, idx)
    decreases |idx|
  {
    hide Linked;
    var mem' := SetEntry(mem, t, i, Leaf(d));
    assert FrameOk(mem, roots, own, t) && FrameOk(mem, roots, own, f);
    var e := mem[f][idx[0]];
    assert EntryOk(own, f, e, idx[0]);
    var hit := own[f].pid == own[t].pid && own[f].path + idx == own[t].path + [i];
    SnocParts(own[t].path, i);
    if |idx| == 1 {
      SnocParts(own[f].path, idx[0]);
      assert idx == [idx[0]];
      if hit {
        TableUnique(mem, roots, own, f, t);
      }
    } else {
      assert f != t && At(mem', f) == mem[f];
      if hit {
        OnTheWay(mem, roots, own, f, t, i, idx);
      }
      if e.valid && !e.read {
        LeafUpdatesWalk(mem, roots, own, t, i, d, e.ppn, idx[1..]);
        assert own[f].path + idx == own[f].path + [idx[0]] + idx[1..];
      }
    }
  }

  /** Above the leaf table, the entry on the way to it is a pointer. */
  lemma {:induction false} OnTheWay(mem: Ram, roots: map<nat, nat>, own: Roles, f: nat, t: nat, i: Index,
          idx: seq<Index>)
    requires TreeOk(mem, roots, own)
    requires f in own && own[f].Inner? && t in own && own[t].Inner? && |own[t].path| == 3
    requires |own[f].path| + |idx| == 4 && |idx| > 1
    requires own[f].pid == own[t].pid && own[f].path + idx == own[t].path + [i]
    ensures At(mem, f)[idx[0]].valid && !At(mem, f)[idx[0]].read
  {
    var k := |own[f].path|;
    assert own[t].path == (own[t].path + [i])[..3] == own[f].path + idx[..|idx| - 1];
    assert own[t].path[k..] == idx[..|idx| - 1];
    TableReached(mem, roots, own, f, t);
  }

  /** The frames the driver releases from table f on, entry y first: each subtree, then f itself.
      lv is the level of f; at level 0 no entry points to a table. */
  function ReleaseFrom(mem: Ram, f: nat, lv: nat, y: nat): seq<nat>
    requires y <= 512
    decreases lv, 512 - y
  {
    if y == 512 then [f]
    else
      var e := At(mem, f)[y];
      (if e.valid && !e.read && lv > 0 then ReleaseFrom(mem, e.ppn, lv - 1, 0) else [])
      + ReleaseFrom(mem, f, lv, y + 1)
  }

  /** Table g lies below entry y or a later entry of the table at path. */
  predicate Below(r: Role, p: nat, path: seq<Index>, y: nat) {
    r.Inner? && r.pid == p && path < r.path && r.path[|path|] >= y
  }

  /** The release order holds f and the tables below it from entry y on, no others, and none twice. */
  ghost predicate OrderOk(own: Roles, f: nat, y: nat, fs: seq<nat>)
    requires f in own && own[f].Inner?
  {
    && (forall g :: g in fs <==> g == f || (g in own && Below(own[g], own[f].pid, own[f].path, y)))
    && Distinct(fs)
  }

  ghost predicate Distinct(fs: seq<nat>) {
    forall j, k :: 0 <= j < k < |fs| ==> fs[j] != fs[k]
  }

  lemma DistinctAppend(a: seq<nat>, b: seq<nat>)
    requires Distinct(a) && Distinct(b) && forall x :: x in a ==> x !in b
    ensures Distinct(a + b)
  {
    forall j, k | 0 <= j < k < |a + b|
      ensures (a + b)[j] != (a + b)[k]
    {
      if j < |a| <= k {
        assert a[j] in a && b[k - |a|] in b;
      }
    }
  }

  lemma {:induction false} OrderJoin(own: Roles, f: nat, y: nat, here: seq<nat>, rest: seq<nat>)
    requires f in own && own[f].Inner? && OrderOk(own, f, y + 1, rest) && Distinct(here)
    requires forall g :: g in here <==>
      g in own && Below(own[g], own[f].pid, own[f].path, y) && own[g].path[|own[f].path|] == y
    ensures OrderOk(own, f, y, here + rest)
  {
    DistinctAppend(here, rest);
  }

  /** The tables below one entry: none, or those released for the table it points to. */
  lemma {:induction false} OrderHere(mem: Ram, roots: map<nat, nat>, own: Roles, f: nat, y: Index, here: seq<nat>)
    requires TreeOk(mem, roots, own) && f in own && own[f].Inner?
    requires var e := At(mem, f)[y];
      if e.valid && !e.read then e.ppn in own && own[e.ppn].Inner? && OrderOk(own, e.ppn, 0, here) else here == []
    ensures Distinct(here)
    ensures forall g :: g in here <==>
      g in own && Below(own[g], own[f].pid, own[f].path, y) && own[g].path[|own[f].path|] == y
  {
    var p, path := own[f].pid, own[f].path;
    assert FrameOk(mem, roots, own, f) && EntryOk(own, f, mem[f][y], y);
    forall g | g in own && Below(own[g], p, path, y) && own[g].path[|path|] == y
      ensures g in here
    {
      BelowEntry(mem, roots, own, f, g);
    }
    if here != [] {
      assert own[mem[f][y].ppn].path == path + [y];
    }
  }

  lemma {:induction false} OrderExact(mem: Ram, roots: map<nat, nat>, own: Roles, f: nat, lv: nat, y: nat)
    requires TreeOk(mem, roots, own)
    requires f in own && own[f].Inner? && |own[f].path| + lv == 3 && y <= 512
    ensures OrderOk(own, f, y, ReleaseFrom(mem, f, lv, y))
    decreases lv, 512 - y
  {
    assert FrameOk(mem, roots, own, f);
    if y == 512 {
    } else {
      var e := mem[f][y];
      assert EntryOk(own, f, e, y);
      OrderExact(mem, roots, own, f, lv, y + 1);
      if e.valid && !e.read {
        OrderExact(mem, roots, own, e.ppn, lv - 1, 0);
      }
      var here := if e.valid && !e.read && lv > 0 then ReleaseFrom(mem, e.ppn, lv - 1, 0) else [];
      OrderHere(mem, roots, own, f, y, here);
      OrderJoin(own, f, y, here, ReleaseFrom(mem, f, lv, y + 1));
    }
  }

  /** A table below f is, or is below, the target of the entry its path takes at f. */
  lemma {:induction false} BelowEntry(mem: Ram, roots: map<nat, nat>, own: Roles, f: nat, g: nat)
    requires TreeOk(mem, roots, own)
    requires f in own && g in own && own[f].Inner? && own[g].Inner?
    requires own[f].pid == own[g].pid && own[f].path < own[g].path
    ensures var e := At(mem, f)[own[g].path[|own[f].path|]];
      && e.valid && !e.read && e.ppn in own && own[e.ppn].Inner? && own[e.ppn].pid == own[f].pid
      && (g == e.ppn || Below(own[g], own[f].pid, own[e.ppn].path, 0))
  {
    var k := |own[f].path|;
    var i := own[g].path[k];
    TableReached(mem, roots, own, f, g);
    assert FrameOk(mem, roots, own, f) && FrameOk(mem, roots, own, g);
    assert own[g].path[k..][0] == i;
    assert EntryOk(own, f, mem[f][i], i);
    var c := mem[f][i].ppn;
    assert own[c].path == own[f].path + [i] <= own[g].path;
    if own[c].path == own[g].path {
      TableUnique(mem, roots, own, c, g);
    }
  }
}
