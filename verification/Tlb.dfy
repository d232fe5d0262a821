/** The translation lookaside buffer: a small table of recent translations, replaced in turn. */
module Tlb {
  import opened Sv48

  datatype Slot = Slot(tag: nat, ppn: nat, asid: nat, valid: bool)

  datatype Stats = Stats(lookups: nat, hits: nat, population: nat, addEvictions: nat, flushes: nat, flushEvictions: nat)

  datatype State = State(slots: seq<Slot>, population: nat, evict: nat, asid: nat, stats: Stats)

  /** Slots below the population are valid, so a full buffer has no invalid slot to reuse. */
  predicate Ok(t: State) {
    && 0 < |t.slots| && t.population <= |t.slots| && t.evict < |t.slots|
    && t.stats.population == t.population
    && forall i :: 0 <= i < t.population ==> t.slots[i].valid
  }

  predicate Matches(s: Slot, vPage: nat, asid: nat) {
    s.valid && s.tag == vPage && s.asid == asid
  }

  /** First populated slot at or after from that holds vPage for the current address space. */
  function Find(t: State, vPage: nat, from: nat): (r: Option<nat>)
    requires from <= t.population <= |t.slots|
    ensures r.Some? ==> from <= r.value < t.population && Matches(t.slots[r.value], vPage, t.asid)
    ensures r.Some? ==> forall j :: from <= j < r.value ==> !Matches(t.slots[j], vPage, t.asid)
    ensures r.None? ==> forall j :: from <= j < t.population ==> !Matches(t.slots[j], vPage, t.asid)
    decreases t.population - from
  {
    if from == t.population then None
    else if Matches(t.slots[from], vPage, t.asid) then Some(from)
    else Find(t, vPage, from + 1)
  }

  function Lookup(t: State, vPage: nat): (Option<nat>, State)
    requires Ok(t)
  {
    var counted := t.(stats := t.stats.(lookups := t.stats.lookups + 1));
    match Find(t, vPage, 0)
    case None => (None, counted)
    case Some(i) => (Some(t.slots[i].ppn), counted.(stats := counted.stats.(hits := t.stats.hits + 1)))
  }

  /** Stores a slot: at the end while there is room, else over the next victim. */
  function Store(t: State, s: Slot): State
    requires Ok(t)
  {
    if t.population < |t.slots| then
      t.(slots := t.slots[t.population := s], population := t.population + 1,
         stats := t.stats.(population := t.stats.population + 1))
    else
      t.(slots := t.slots[t.evict := s], evict := (t.evict + 1) % |t.slots|,
         stats := t.stats.(addEvictions := t.stats.addEvictions + 1))
  }

  function Add(t: State, vPage: nat, pPage: nat): State
    requires Ok(t)
  {
    Store(t, Slot(vPage, pPage, t.asid, true))
  }

  /** Flushing empties the buffer; it does not move the next victim. */
  function Flush(t: State): State {
    t.(population := 0, stats := t.stats.(flushes := t.stats.flushes + 1,
                                          flushEvictions := t.stats.flushEvictions + t.population, population := 0))
  }

  function SetAsid(t: State, asid: nat): State { t.(asid := asid) }

  datatype Op = DoLookup(vPage: nat) | DoAdd(tag: nat, ppn: nat) | DoFlush | DoSetAsid(asid: nat)

  function Apply(t: State, op: Op): (t': State)
    requires Ok(t)
  {
    match op
    case DoLookup(v) => Lookup(t, v).1
    case DoAdd(v, p) => Add(t, v, p)
    case DoFlush => Flush(t)
    case DoSetAsid(a) => SetAsid(t, a)
  }

  lemma {:induction false} ApplyKeeps(t: State, op: Op)
    requires Ok(t)
    ensures Ok(Apply(t, op)) && |Apply(t, op).slots| == |t.slots|
  {
  }

  function Run(t: State, ops: seq<Op>): State
    requires Ok(t)
    decreases |ops|
  {
    if ops == [] then t else ApplyKeeps(t, ops[0]); Run(Apply(t, ops[0]), ops[1..])
  }

  function Adds(ops: seq<Op>): nat {
    if ops == [] then 0 else (if ops[0].DoAdd? then 1 else 0) + Adds(ops[1..])
  }

  /** Translations that are in the buffer or were pushed out of it. */
  function Accounted(t: State): nat {
    t.stats.addEvictions + t.population + t.stats.flushEvictions
  }

  /** Over every run, each added translation is resident, evicted by an add, or flushed; and the
      populated slots stay valid. */
  lemma {:induction false} RunAccounts(t: State, ops: seq<Op>)
    requires Ok(t)
    ensures Ok(Run(t, ops)) && |Run(t, ops).slots| == |t.slots|
    ensures Accounted(Run(t, ops)) == Accounted(t) + Adds(ops)
    decreases |ops|
  {
    if ops == [] {
    } else {
      ApplyKeeps(t, ops[0]);
      RunAccounts(Apply(t, ops[0]), ops[1..]);
    }
  }

  function Lookups(ops: seq<Op>): nat {
    if ops == [] then 0 else (if ops[0].DoLookup? then 1 else 0) + Lookups(ops[1..])
  }

  /** Lookups of a run that are answered. */
  function Hits(t: State, ops: seq<Op>): nat
    requires Ok(t)
    decreases |ops|
  {
    if ops == [] then 0
    else
      ApplyKeeps(t, ops[0]);
      (if ops[0].DoLookup? && Lookup(t, ops[0].vPage).0.Some? then 1 else 0) + Hits(Apply(t, ops[0]), ops[1..])
  }

  /** Over every run the statistics count all lookups, and as hits those that were answered. */
  lemma {:induction false} RunCounts(t: State, ops: seq<Op>)
    requires Ok(t)
    ensures Run(t, ops).stats.lookups == t.stats.lookups + Lookups(ops)
    ensures Run(t, ops).stats.hits == t.stats.hits + Hits(t, ops)
    ensures Hits(t, ops) <= Lookups(ops)
    decreases |ops|
  {
    if ops == [] {
    } else {
      ApplyKeeps(t, ops[0]);
      RunCounts(Apply(t, ops[0]), ops[1..]);
    }
  }

  /* ----- replacement order ----- */

  lemma {:induction false} StoreKeeps(t: State, s: Slot)
    requires Ok(t) && s.valid
    ensures Ok(Store(t, s)) && |Store(t, s).slots| == |t.slots|
  {
  }

  predicate AllValid(l: seq<Slot>) {
    forall k :: 0 <= k < |l| ==> l[k].valid
  }

  /** The slots of l stored one after the other. */
  function StoreAll(t: State, l: seq<Slot>): (r: State)
    requires Ok(t) && AllValid(l)
    ensures Ok(r) && |r.slots| == |t.slots|
    decreases |l|
  {
    if l == [] then t
    else
      var r := StoreAll(t, l[..|l| - 1]);
      StoreKeeps(r, l[|l| - 1]);
      Store(r, l[|l| - 1])
  }

  lemma {:induction false} StoreAllAppend(t: State, a: seq<Slot>, b: seq<Slot>)
    requires Ok(t) && AllValid(a) && AllValid(b)
    ensures StoreAll(t, a + b) == StoreAll(StoreAll(t, a), b)
    decreases |b|
  {
    if b == [] {
      assert a + b == a;
    } else {
      var k := |b| - 1;
      assert (a + b)[..|a + b| - 1] == a + b[..k];
      StoreAllAppend(t, a, b[..k]);
    }
  }

  /** While there is room, stored slots line up behind each other. */
  lemma {:induction false} FillsUp(t: State, l: seq<Slot>)
    requires Ok(t) && AllValid(l) && t.population + |l| <= |t.slots|
    ensures var r := StoreAll(t, l);
      && r.population == t.population + |l| && r.evict == t.evict
      && r.slots[..r.population] == t.slots[..t.population] + l
    decreases |l|
  {
    if l == [] {
    } else {
      var k := |l| - 1;
      FillsUp(t, l[..k]);
      assert l == l[..k] + [l[k]];
    }
  }

  /** Steps from victim e to slot x, going round m slots. */
  function Dist(e: nat, x: nat, m: nat): nat
    requires e < m && x < m
  {
    if x >= e then x - e else x - e + m
  }

  /** In a full buffer of m slots, up to m stores go round once from the next victim. */
  lemma {:induction false} GoesRound(t: State, l: seq<Slot>)
    requires Ok(t) && AllValid(l) && t.population == |t.slots| && |l| <= |t.slots|
    ensures var r, m := StoreAll(t, l), |t.slots|;
      && r.population == m
      && r.evict == (if t.evict + |l| < m then t.evict + |l| else t.evict + |l| - m)
      && forall x: nat :: x < m ==>
           r.slots[x] == if Dist(t.evict, x, m) < |l| then l[Dist(t.evict, x, m)] else t.slots[x]
    decreases |l|
  {
    if l == [] {
    } else {
      var k, m, e := |l| - 1, |t.slots|, t.evict;
      GoesRound(t, l[..k]);
      var u := StoreAll(t, l[..k]);
      NextSlot(u.evict, m);
      assert StoreAll(t, l) == Store(u, l[k]);
      assert forall x: nat :: x < m ==> (Dist(e, x, m) == k <==> x == u.evict);
    }
  }

  lemma NextSlot(e: nat, m: nat)
    requires e < m
    ensures (e + 1) % m == if e + 1 < m then e + 1 else 0
  {
  }

  /** The populated slots, in any order. */
  ghost function Resident(t: State): multiset<Slot>
    requires Ok(t)
  {
    multiset(t.slots[..t.population])
  }

  lemma SplitMultiset(a: seq<Slot>, k: nat)
    requires k <= |a|
    ensures multiset(a) == multiset(a[..k]) + multiset(a[k..])
  {
    assert a == a[..k] + a[k..];
  }

  /** Any full round of stores leaves exactly what it stored. */
  lemma {:induction false} RoundReplacesAll(t: State, l: seq<Slot>)
    requires Ok(t) && AllValid(l) && t.population == |t.slots| == |l|
    ensures Resident(StoreAll(t, l)) == multiset(l)
  {
    GoesRound(t, l);
    var r, m, e := StoreAll(t, l), |t.slots|, t.evict;
    assert r.slots[..m] == l[m - e..] + l[..m - e];
    hide StoreAll, Dist, AllValid;
    SplitMultiset(l, m - e);
  }

  /** The last n stores that the buffer could hold. */
  function LastFitting(l: seq<Slot>, m: nat): seq<Slot> {
    if |l| <= m then l else l[|l| - m..]
  }

  /** Slots a after b has been stored over it, from victim e on. */
  predicate Overlaid(slots: seq<Slot>, a: seq<Slot>, b: seq<Slot>, e: nat)
    requires |slots| == |a| && e < |a|
  {
    forall x: nat :: x < |a| ==>
      slots[x] == if Dist(e, x, |a|) < |b| then b[Dist(e, x, |a|)] else a[x]
  }

  /** Between one and two rounds after a flush, the first round is overlaid by the rest. */
  lemma {:induction false} PartialRound(t: State, a: seq<Slot>, b: seq<Slot>)
    requires Ok(t) && AllValid(a) && AllValid(b) && t.population == 0 && |b| <= |t.slots| == |a|
    ensures var r := StoreAll(t, a + b);
      r.population == |a| && Overlaid(r.slots, a, b, t.evict)
  {
    StoreAllAppend(t, a, b);
    FillsUp(t, a);
    var u := StoreAll(t, a);
    assert u.slots == u.slots[..|a|] == a;
    GoesRound(u, b);
  }

  /** With the victim pointer at the start, a partial second round leaves the last stores. */
  lemma {:induction false} OverlaidFromStart(slots: seq<Slot>, a: seq<Slot>, b: seq<Slot>)
    requires |slots| == |a| && 0 < |b| < |a| && Overlaid(slots, a, b, 0)
    ensures multiset(slots) == multiset((a + b)[|b|..])
  {
    assert slots == b + a[|b|..];
    assert (a + b)[|b|..] == a[|b|..] + b;
  }

  /** With the victim pointer elsewhere, it loses a store younger than one it keeps. */
  lemma {:induction false} OverlaidLoses(slots: seq<Slot>, a: seq<Slot>, b: seq<Slot>, e: nat)
    requires |slots| == |a| && 0 < |b| < |a| && 0 < e < |a| && Overlaid(slots, a, b, e)
    requires forall j, k :: 0 <= j < k < |a + b| ==> (a + b)[j] != (a + b)[k]
    ensures multiset(slots) != multiset((a + b)[|b|..])
  {
    var m, k := |a|, |b|;
    var lost := if e > k then e else k;
    assert a[lost] == (a + b)[k..][lost - k];
    assert a[lost] in multiset((a + b)[k..]);
    forall x: nat | x < m
      ensures slots[x] != a[lost]
    {
      var d := Dist(e, x, m);
      if d < k {
        assert slots[x] == b[d] == (a + b)[m + d];
      } else {
        assert slots[x] == a[x] == (a + b)[x];
        assert x != lost;
      }
      assert a[lost] == (a + b)[lost];
    }
    assert a[lost] !in multiset(slots);
  }

  lemma {:induction false} FifoLong(t: State, a: seq<Slot>, b: seq<Slot>)
    requires Ok(t) && AllValid(a) && AllValid(b) && |t.slots| == |b| <= |a|
    ensures Resident(StoreAll(t, a + b)) == multiset(b)
  {
    StoreAllAppend(t, a, b);
    StaysFull(t, a);
    RoundReplacesAll(StoreAll(t, a), b);
  }

  /** When replacement after a flush is first-in first-out: the victim pointer is at the start, or no slot,
      or every slot, is replaced. */
  predicate FifoHolds(evict: nat, n: nat, m: nat) {
    n <= m || evict == 0 || 2 * m <= n
  }

  /** Then the buffer holds the last translations added, repeated ones included. */
  lemma {:induction false} FifoWhen(t: State, l: seq<Slot>)
    requires Ok(t) && AllValid(l) && t.population == 0 && FifoHolds(t.evict, |l|, |t.slots|)
    ensures Resident(StoreAll(t, l)) == multiset(LastFitting(l, |t.slots|))
  {
    hide StoreAll, Resident;
    var m, n := |t.slots|, |l|;
    if n <= m {
      FifoShort(t, l);
    } else if 2 * m <= n {
      var a, b := l[..n - m], l[n - m..];
      assert l == a + b;
      FifoLong(t, a, b);
    } else {
      var a, b := l[..m], l[m..];
      assert l == a + b;
      FifoPartial(t, a, b);
    }
  }

  lemma {:induction false} FifoShort(t: State, l: seq<Slot>)
    requires Ok(t) && AllValid(l) && t.population == 0 && |l| <= |t.slots|
    ensures Resident(StoreAll(t, l)) == multiset(l)
  {
    FillsUp(t, l);
    assert StoreAll(t, l).slots[..|l|] == l;
  }

  lemma {:induction false} FifoPartial(t: State, a: seq<Slot>, b: seq<Slot>)
    requires Ok(t) && AllValid(a) && AllValid(b) && t.population == 0 && t.evict == 0 && 0 < |b| < |t.slots| == |a|
    ensures Resident(StoreAll(t, a + b)) == multiset((a + b)[|b|..])
  {
    PartialRound(t, a, b);
    var r := StoreAll(t, a + b);
    assert r.slots[..|a|] == r.slots;
    OverlaidFromStart(r.slots, a, b);
  }

  /** Otherwise it loses a younger translation than one it keeps, unless translations repeat. */
  lemma {:induction false} FifoOnlyWhen(t: State, l: seq<Slot>)
    requires Ok(t) && AllValid(l) && t.population == 0 && !FifoHolds(t.evict, |l|, |t.slots|)
    requires forall j, k :: 0 <= j < k < |l| ==> l[j] != l[k]
    ensures Resident(StoreAll(t, l)) != multiset(LastFitting(l, |t.slots|))
  {
    hide StoreAll;
    var a, b := l[..|t.slots|], l[|t.slots|..];
    assert l == a + b;
    PartialRound(t, a, b);
    var r := StoreAll(t, a + b);
    assert r.slots[..|a|] == r.slots;
    OverlaidLoses(r.slots, a, b, t.evict);
  }

  /** After a flush, n translations are replaced first-in first-out, whatever they are: exactly then. */
  lemma {:induction false} FifoIff(t: State, n: nat)
    requires Ok(t) && t.population == 0
    ensures FifoHolds(t.evict, n, |t.slots|) <==>
            forall l :: AllValid(l) && |l| == n ==> Resident(StoreAll(t, l)) == multiset(LastFitting(l, |t.slots|))
  {
    if FifoHolds(t.evict, n, |t.slots|) {
      forall l | AllValid(l) && |l| == n
        ensures Resident(StoreAll(t, l)) == multiset(LastFitting(l, |t.slots|))
      {
        FifoWhen(t, l);
      }
    } else {
      FifoOnlyWhen(t, seq(n, k requires 0 <= k < n => Slot(k, 0, 0, true)));
    }
  }

  /* ----- replacement over runs ----- */

  predicate NoFlush(ops: seq<Op>) {
    forall i :: 0 <= i < |ops| ==> !ops[i].DoFlush?
  }

  /** The slots that the adds of ops store, in order, asid being current at first. */
  function Added(asid: nat, ops: seq<Op>): (l: seq<Slot>)
    ensures AllValid(l)
    decreases |ops|
  {
    if ops == [] then []
    else
      match ops[0]
      case DoAdd(v, p) => [Slot(v, p, asid, true)] + Added(asid, ops[1..])
      case DoSetAsid(a) => Added(a, ops[1..])
      case _ => Added(asid, ops[1..])
  }

  /** Same slots, population and victim. */
  predicate SameStore(t: State, u: State) {
    t.slots == u.slots && t.population == u.population && t.evict == u.evict
  }

  lemma {:induction false} StoreAllSame(t: State, u: State, l: seq<Slot>)
    requires Ok(t) && Ok(u) && SameStore(t, u) && AllValid(l)
    ensures SameStore(StoreAll(t, l), StoreAll(u, l))
    decreases |l|
  {
    if l == [] {
    } else {
      StoreAllSame(t, u, l[..|l| - 1]);
    }
  }

  lemma {:induction false} StoreAllCons(t: State, s: Slot, l: seq<Slot>)
    requires Ok(t) && AllValid(l) && s.valid
    ensures Ok(Store(t, s)) && AllValid([s] + l) && StoreAll(t, [s] + l) == StoreAll(Store(t, s), l)
  {
    StoreKeeps(t, s);
    StoreAllAppend(t, [s], l);
    assert [s][..0] == [];
  }

  /** Between flushes, lookups and changes of address space do not disturb what adds store. */
  lemma {:induction false} RunStores(t: State, ops: seq<Op>)
    requires Ok(t) && NoFlush(ops)
    ensures Ok(Run(t, ops)) && SameStore(Run(t, ops), StoreAll(t, Added(t.asid, ops)))
    decreases |ops|
  {
    hide StoreAll;
    if ops == [] {
      StoreNone(t);
    } else {
      ApplyKeeps(t, ops[0]);
      var u, rest := Apply(t, ops[0]), ops[1..];
      RunStores(u, rest);
      if ops[0].DoAdd? {
        StoreAllCons(t, Slot(ops[0].tag, ops[0].ppn, t.asid, true), Added(t.asid, rest));
      } else {
        StoreAllSame(t, u, Added(u.asid, rest));
      }
    }
  }

  lemma StoreNone(t: State)
    requires Ok(t)
    ensures StoreAll(t, []) == t
  {
  }

  /** A buffer not flushed since it was made holds exactly the last translations added to it, as many as
      it has slots for, whatever was looked up and whichever address spaces were current. */
  lemma {:induction false} FifoFromFresh(t: State, ops: seq<Op>)
    requires Ok(t) && t.population == 0 && t.evict == 0 && NoFlush(ops)
    ensures Ok(Run(t, ops)) && Resident(Run(t, ops)) == multiset(LastFitting(Added(t.asid, ops), |t.slots|))
  {
    RunStores(t, ops);
    FifoWhen(t, Added(t.asid, ops));
  }

  lemma {:induction false} RunAppend(t: State, a: seq<Op>, b: seq<Op>)
    requires Ok(t)
    ensures Ok(Run(t, a)) && Run(t, a + b) == Run(Run(t, a), b)
    decreases |a|
  {
    if a == [] {
      assert a + b == b;
    } else {
      ApplyKeeps(t, a[0]);
      assert (a + b)[1..] == a[1..] + b;
      RunAppend(Apply(t, a[0]), a[1..], b);
    }
  }

  /** The victim moves one slot, cyclically, per eviction, and for no other reason. */
  lemma {:induction false} VictimOverRuns(t: State, ops: seq<Op>)
    requires Ok(t) && t.evict == t.stats.addEvictions % |t.slots|
    ensures var r := Run(t, ops); Ok(r) && |r.slots| == |t.slots| && r.evict == r.stats.addEvictions % |r.slots|
    decreases |ops|
  {
    if ops == [] {
    } else {
      ApplyKeeps(t, ops[0]);
      NextVictim(t.stats.addEvictions, |t.slots|);
      VictimOverRuns(Apply(t, ops[0]), ops[1..]);
    }
  }

  lemma {:induction false} NextVictim(e: nat, m: nat)
    requires 0 < m
    ensures (e % m + 1) % m == (e + 1) % m
  {
    var q, r := e / m, e % m;
    assert e + 1 == q * m + (r + 1);
    NextSlot(r, m);
    if r + 1 < m {
      DivUnique(e + 1, m, q);
    } else {
      assert e + 1 == (q + 1) * m by {
        MulDistributes(q, 1, m);
      }
      DivUnique(e + 1, m, q + 1);
    }
  }

  /** From a fresh buffer: what it holds after its last flush, provided the evictions until then were a
      multiple of its size, or what was added since fits or goes round twice. */
  lemma {:induction false} FifoSinceFlush(t: State, pre: seq<Op>, post: seq<Op>)
    requires Ok(t) && t.evict == 0 && t.stats.addEvictions == 0 && NoFlush(post)
    requires FifoHolds(Run(t, pre).stats.addEvictions % |t.slots|, |Added(Run(t, pre).asid, post)|, |t.slots|)
    ensures var r := Run(t, pre + [DoFlush] + post);
      Ok(r) && Resident(r) == multiset(LastFitting(Added(Run(t, pre).asid, post), |t.slots|))
  {
    VictimOverRuns(t, pre);
    var u := Run(t, pre);
    ApplyKeeps(u, DoFlush);
    RunAppend(t, pre + [DoFlush], post);
    RunAppend(t, pre, [DoFlush]);
    assert [DoFlush][1..] == [];
    assert Run(u, [DoFlush]) == Run(Flush(u), []) == Flush(u);
    RunStores(Flush(u), post);
    FifoWhen(Flush(u), Added(u.asid, post));
  }

  /** n adds of different pages from page v on. */
  function AddsFrom(v: nat, n: nat): (ops: seq<Op>)
    ensures |ops| == n && forall i :: 0 <= i < n ==> ops[i].DoAdd?
    decreases n
  {
    if n == 0 then [] else [DoAdd(v, 0)] + AddsFrom(v + 1, n - 1)
  }

  lemma {:induction false} AddedFrom(asid: nat, v: nat, n: nat)
    ensures Adds(AddsFrom(v, n)) == n
    ensures Added(asid, AddsFrom(v, n)) == seq(n, k requires 0 <= k < n => Slot(v + k, 0, asid, true))
    decreases n
  {
    if n == 0 {
    } else {
      assert AddsFrom(v, n)[1..] == AddsFrom(v + 1, n - 1);
      AddedFrom(asid, v + 1, n - 1);
    }
  }

  /** The run in which it fails, for every size above 1: one add more than fits, a flush, and then more adds
      than fit but fewer than twice as many. A younger translation is gone and an older one still there. */
  lemma {:induction false} FifoFails(t: State, n: nat)
    requires Ok(t) && t.population == 0 && t.evict == 0 && t.stats.addEvictions == 0 && t.stats.flushEvictions == 0
    requires |t.slots| < n < 2 * |t.slots|
    ensures var m := |t.slots|;
      var r := Run(t, AddsFrom(0, m + 1) + [DoFlush] + AddsFrom(0, n));
      Ok(r) && Resident(r) != multiset(LastFitting(Added(t.asid, AddsFrom(0, n)), m))
  {
    var m := |t.slots|;
    var pre, post := AddsFrom(0, m + 1), AddsFrom(0, n);
    AddedFrom(t.asid, 0, m + 1);
    AddedFrom(t.asid, 0, n);
    var u := OneOver(t, pre);
    ApplyKeeps(u, DoFlush);
    RunAppend(t, pre + [DoFlush], post);
    RunAppend(t, pre, [DoFlush]);
    assert [DoFlush][1..] == [];
    assert Run(u, [DoFlush]) == Run(Flush(u), []) == Flush(u);
    RunStores(Flush(u), post);
    FifoOnlyWhen(Flush(u), Added(u.asid, post));
  }

  /** After one add more than fits, the victim is slot 1. */
  lemma {:induction false} OneOver(t: State, pre: seq<Op>) returns (u: State)
    requires Ok(t) && t.population == 0 && t.evict == 0 && t.stats.addEvictions == 0 && t.stats.flushEvictions == 0
    requires 1 < |t.slots| && (forall i :: 0 <= i < |pre| ==> pre[i].DoAdd?) && Adds(pre) == |t.slots| + 1
    requires |Added(t.asid, pre)| == |t.slots| + 1
    ensures u == Run(t, pre) && Ok(u) && u.evict == 1 && |u.slots| == |t.slots| && u.asid == t.asid
  {
    hide StoreAll, Added, Run, Adds;
    var m := |t.slots|;
    NextSlot(0, m);
    u := Run(t, pre);
    RunAccounts(t, pre);
    VictimOverRuns(t, pre);
    RunStores(t, pre);
    StaysFull(t, Added(t.asid, pre));
    OnlyAddsKeep(t, pre);
  }

  lemma {:induction false} OnlyAddsKeep(t: State, ops: seq<Op>)
    requires Ok(t) && forall i :: 0 <= i < |ops| ==> ops[i].DoAdd?
    ensures Run(t, ops).asid == t.asid && Run(t, ops).stats.flushEvictions == t.stats.flushEvictions
    decreases |ops|
  {
    if ops == [] {
    } else {
      ApplyKeeps(t, ops[0]);
      OnlyAddsKeep(Apply(t, ops[0]), ops[1..]);
    }
  }

  /** m or more stores fill m slots. */
  lemma {:induction false} StaysFull(t: State, l: seq<Slot>)
    requires Ok(t) && AllValid(l) && |t.slots| <= t.population + |l|
    ensures StoreAll(t, l).population == |t.slots|
    decreases |l|
  {
    if l != [] && |t.slots| < t.population + |l| {
      StaysFull(t, l[..|l| - 1]);
    } else {
      FillsUp(t, l);
    }
  }
}
