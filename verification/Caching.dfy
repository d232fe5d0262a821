/** What the translation buffer does for the machine: a translation is kept, a switch keeps or drops all of
    them as configured, and over whole runs which accesses hit. */
module Caching {
  import opened Sv48
  import opened PageTable
  import opened Memory
  import opened Kernel
  import opened Runs
  import opened Tally
  import Teardown
  import Tlb

  /* ----- one translation ----- */

  /** The frame the running process maps at a virtual page. */
  ghost function MappedAt(k: Machine, vPage: nat): Option<nat> {
    Mapped(k.mm, k.current, MmuPath(vPage))
  }

  ghost predicate Resident(k: Machine, vPage: nat)
    requires Tlb.Ok(k.tlb)
  {
    Tlb.Lookup(k.tlb, vPage).0.Some?
  }

  /** Slots, population and victim are the same. */
  predicate SameSlots(t: Tlb.State, u: Tlb.State) {
    u.slots == t.slots && u.population == t.population && u.evict == t.evict && u.asid == t.asid
  }

  /** With the buffer on, a translation counts one lookup, and a hit exactly when the page was resident. A
      resident or unmapped page leaves the slots alone; any other is resident afterwards, and one slot
      was filled for it. With the buffer off nothing changes. */
  lemma {:induction false} TranslationCached(k: Machine, o: Account, addr: u64)
    requires Inv(k, o) && k.current != 0
    ensures var (t, k') := GetTranslation(k, addr); var v := VPage(addr);
      && Tlb.Ok(k.tlb) && Tlb.Ok(k'.tlb)
      && (!k.cfg.tlbOn ==> k' == k)
      && (k.cfg.tlbOn ==>
            && (t.Translated? ==> Tlb.Lookup(k'.tlb, v).0 == MappedAt(k, v) && Resident(k', v))
            && (t == PageFault ==> !Resident(k, v) && !Resident(k', v))
            && k'.tlb.stats.lookups == k.tlb.stats.lookups + 1
            && k'.tlb.stats.hits == k.tlb.stats.hits + (if Resident(k, v) then 1 else 0)
            && k'.tlb.stats.flushes == k.tlb.stats.flushes
            && (Resident(k, v) || t == PageFault ==> SameSlots(k.tlb, k'.tlb))
            && Tlb.Accounted(k'.tlb) == Tlb.Accounted(k.tlb) + (if t.Translated? && !Resident(k, v) then 1 else 0))
  {
    if k.cfg.tlbOn {
      TranslationIs(k, o, addr);
      var v := VPage(addr);
      CountedLookup(k.tlb, v);
      if !Resident(k, v) && MappedAt(k, v).Some? {
        AddedIsFound(Tlb.Lookup(k.tlb, v).1, v, MappedAt(k, v).value);
      }
    } else {
      RunningRoot(k, o);
    }
    hide Inv, GetTranslation, Mapped, Tlb.Lookup, Tlb.Add, Tlb.Find;
  }

  /** A lookup changes nothing but the counts. */
  lemma CountedLookup(t: Tlb.State, v: nat)
    requires Tlb.Ok(t)
    ensures var (hit, u) := Tlb.Lookup(t, v);
      && Tlb.Ok(u) && SameSlots(t, u) && Tlb.Lookup(u, v).0 == hit && Tlb.Accounted(u) == Tlb.Accounted(t)
      && u.stats == t.stats.(lookups := t.stats.lookups + 1, hits := t.stats.hits + if hit.Some? then 1 else 0)
  {
    FindSame(t, Tlb.Lookup(t, v).1, v, 0);
  }

  lemma {:induction false} FindSame(t: Tlb.State, u: Tlb.State, v: nat, from: nat)
    requires SameSlots(t, u) && from <= t.population <= |t.slots|
    ensures Tlb.Find(u, v, from) == Tlb.Find(t, v, from)
    decreases t.population - from
  {
    if from == t.population {
    } else {
      FindSame(t, u, v, from + 1);
    }
  }

  /** An added translation is found. */
  lemma {:induction false} AddedIsFound(t: Tlb.State, v: nat, p: nat)
    requires Tlb.Ok(t) && Tlb.Lookup(t, v).0.None?
    ensures var u := Tlb.Add(t, v, p);
      && Tlb.Ok(u) && Tlb.Lookup(u, v).0 == Some(p) && Tlb.Accounted(u) == Tlb.Accounted(t) + 1
      && u.stats.lookups == t.stats.lookups && u.stats.hits == t.stats.hits && u.stats.flushes == t.stats.flushes
  {
    Tlb.ApplyKeeps(t, Tlb.DoAdd(v, p));
    var u := Tlb.Add(t, v, p);
    var i := if t.population < |t.slots| then t.population else t.evict;
    assert u.slots[i] == Tlb.Slot(v, p, t.asid, true);
    assert forall j :: 0 <= j < t.population && j != i ==> u.slots[j] == t.slots[j];
  }

  /** The translation and the buffer after it. */
  lemma {:induction false} TranslationIs(k: Machine, o: Account, addr: u64)
    requires Inv(k, o) && k.current != 0 && k.cfg.tlbOn
    ensures Tlb.Ok(k.tlb)
    ensures var (t, k') := GetTranslation(k, addr); var v := VPage(addr); var (hit, u) := Tlb.Lookup(k.tlb, v);
      && Tlb.Ok(u) && (t.Translated? <==> MappedAt(k, v).Some?) && (t.Translated? || t == PageFault)
      && (hit.Some? ==> hit == MappedAt(k, v) && k'.tlb == u)
      && (hit.None? ==> k'.tlb == match MappedAt(k, v) case None => u case Some(p) => Tlb.Add(u, v, p))
  {
    RunningRoot(k, o);
    Transparent(k, o, addr);
    WalkIsMapped(k, o, addr);
    WhatIsFound(k, o, addr);
    hide Inv, Walk, Tlb.Find;
  }

  /** What a lookup finds is what the process maps. */
  lemma {:induction false} WhatIsFound(k: Machine, o: Account, addr: u64)
    requires Inv(k, o) && k.current != 0 && k.cfg.tlbOn
    ensures Tlb.Ok(k.tlb)
    ensures Resident(k, VPage(addr)) ==> Tlb.Lookup(k.tlb, VPage(addr)).0 == MappedAt(k, VPage(addr))
  {
    RunningRoot(k, o);
    var f := Tlb.Find(k.tlb, VPage(addr), 0);
    if f.Some? {
      assert SlotOk(k, k.tlb.slots[f.value]);
    }
  }

  /* ----- one switch ----- */

  /** The buffer across a switch: with address spaces only the current one changes; without, a change of
      process empties the buffer and counts a flush, and the slots and the victim stay where they are. */
  ghost predicate SwitchedBuffer(k: Machine, k': Machine) {
    if !k.cfg.tlbOn then k'.tlb == k.tlb
    else if k.cfg.asidOn then k'.tlb == k.tlb.(asid := k'.current)
    else if k'.current == k.current then k'.tlb == k.tlb
    else
      && k'.tlb.population == 0 && k'.tlb.slots == k.tlb.slots && k'.tlb.evict == k.tlb.evict
      && k'.tlb.asid == k.tlb.asid
      && k'.tlb.stats == k.tlb.stats.(flushes := k.tlb.stats.flushes + 1, population := 0,
                                      flushEvictions := k.tlb.stats.flushEvictions + k.tlb.population)
  }

  /** The MMU's root: that of the new process; without one, and on the early return, as it was. */
  ghost predicate SwitchedRoot(k: Machine, k': Machine) {
    k'.root == if k'.current != 0 && k'.current != k.current then PageTableAddr(k.mm, k'.current) else k.root
  }

  lemma {:induction false} SwitchBuffer(k: Machine, o: Account, next: nat)
    requires Inv(k, o)
    ensures SwitchTo(k, next).current == next
    ensures SwitchedBuffer(k, SwitchTo(k, next)) && SwitchedRoot(k, SwitchTo(k, next))
  {
  }

  /** So it is across every interrupt, the early return included. */
  lemma {:induction false} InterruptBuffer(k: Machine, o: Account, i: Interrupt)
    requires Inv(k, o) && (i.SyscallExit? ==> k.current != 0)
    ensures k.current in k.mm.roots || k.current == 0
    ensures SwitchedBuffer(k, HandleInterrupt(k, i))
  {
    InterruptKeeps(k, o, i);
    var k1 := Requeued(k, i);
    DispatchBuffer(k, if k1.ready == [] then k1 else k1.(ready := k1.ready[1..]),
        if k1.ready == [] then 0 else k1.ready[0]);
    hide Inv, Teardown.Terminate, SwitchTo, SwitchedBuffer;
  }

  lemma DispatchBuffer(k: Machine, k1: Machine, next: nat)
    requires k1 == k.(mm := k1.mm, ready := k1.ready) && (k.cfg.tlbOn && k.cfg.asidOn ==> k.tlb.asid == k.current)
    ensures SwitchedBuffer(k, SwitchTo(k1, next))
  {
  }

  /* ----- the buffer's operations over runs ----- */

  /** What an event does to the buffer, told from what is resident and what is mapped: an access looks up,
      once more after a fault that was served, and adds what it did not find; a change of process sets
      the address space, or flushes. */
  ghost function OpsOf(k: Machine, e: Event): seq<Tlb.Op>
    requires Tlb.Ok(k.tlb)
  {
    if !k.cfg.tlbOn || !Enabled(k, e) then []
    else
      match e
      case Touch(addr) =>
        var v := VPage(addr);
        if Resident(k, v) then [Tlb.DoLookup(v)]
        else if MappedAt(k, v).Some? then [Tlb.DoLookup(v), Tlb.DoAdd(v, MappedAt(k, v).value)]
        else if MappedAt(Step(k, e), v).Some? then
          [Tlb.DoLookup(v), Tlb.DoLookup(v), Tlb.DoAdd(v, MappedAt(Step(k, e), v).value)]
        else [Tlb.DoLookup(v)]
      case _ =>
        var next := Step(k, e).current;
        if k.cfg.asidOn then [Tlb.DoSetAsid(next)] else if next == k.current then [] else [Tlb.DoFlush]
  }

  lemma OneOp(t: Tlb.State, a: Tlb.Op)
    requires Tlb.Ok(t)
    ensures Tlb.Ok(Tlb.Apply(t, a)) && Tlb.Run(t, []) == t && Tlb.Run(t, [a]) == Tlb.Apply(t, a)
  {
    hide Tlb.Apply, Tlb.Ok;
    Tlb.ApplyKeeps(t, a);
    assert [a][1..] == [] && Tlb.Run(Tlb.Apply(t, a), []) == Tlb.Apply(t, a);
  }

  lemma RunOps(t: Tlb.State, a: Tlb.Op, b: Tlb.Op, c: Tlb.Op)
    requires Tlb.Ok(t)
    ensures Tlb.Ok(Tlb.Apply(t, a)) && Tlb.Ok(Tlb.Apply(Tlb.Apply(t, a), b))
    ensures Tlb.Run(t, [a]) == Tlb.Apply(t, a)
    ensures Tlb.Run(t, [a, b]) == Tlb.Apply(Tlb.Apply(t, a), b)
    ensures Tlb.Run(t, [a, b, c]) == Tlb.Apply(Tlb.Apply(Tlb.Apply(t, a), b), c)
  {
    hide Tlb.Apply, Tlb.Ok, Tlb.Run;
    OneOp(t, a);
    OneOp(Tlb.Apply(t, a), b);
    OneOp(Tlb.Apply(Tlb.Apply(t, a), b), c);
    assert [a, b] == [a] + [b] && [a, b, c] == [a, b] + [c];
    Tlb.RunAppend(t, [a], [b]);
    Tlb.RunAppend(t, [a, b], [c]);
  }

  /** An access as operations of the buffer. */
  lemma {:induction false} TouchOps(k: Machine, o: Account, addr: u64)
    requires Inv(k, o) && k.current != 0 && k.cfg.tlbOn
    ensures Tlb.Ok(k.tlb) && Enabled(k, Touch(addr))
    ensures Step(k, Touch(addr)).tlb == Tlb.Run(k.tlb, OpsOf(k, Touch(addr)))
  {
    var v := VPage(addr);
    RunningRoot(k, o);
    TranslationIs(k, o, addr);
    GetTranslationKeeps(k, o, addr);
    var (t, k1) := GetTranslation(k, addr);
    var o' := AccessKeeps(k, o, addr);
    RunOps(k.tlb, Tlb.DoLookup(v), Tlb.DoLookup(v), Tlb.DoLookup(v));
    if t == PageFault {
      FaultOps(k, o, addr, k1);
    } else if !Resident(k, v) {
      RunOps(k.tlb, Tlb.DoLookup(v), Tlb.DoAdd(v, MappedAt(k, v).value), Tlb.DoLookup(v));
    }
    hide Inv, GetTranslation, Mapped, Tlb.Lookup, Tlb.Add, Tlb.Run, HandleFault;
  }

  lemma {:induction false} FaultOps(k: Machine, o: Account, addr: u64, k1: Machine)
    requires Inv(k, o) && k.current != 0 && k.cfg.tlbOn && GetTranslation(k, addr) == (PageFault, k1)
    ensures Tlb.Ok(k.tlb) && Enabled(k, Touch(addr))
    ensures Step(k, Touch(addr)).tlb == Tlb.Run(k.tlb, OpsOf(k, Touch(addr)))
  {
    var v := VPage(addr);
    RunningRoot(k, o);
    TranslationIs(k, o, addr);
    GetTranslationKeeps(k, o, addr);
    var o', d := HandleFaultKeeps(k1, o, addr);
    var (e, k2) := HandleFault(k1, addr);
    CountedLookup(k.tlb, v);
    RunOps(k.tlb, Tlb.DoLookup(v), Tlb.DoLookup(v), Tlb.DoLookup(v));
    if e.None? {
      TranslationIs(k2, o', addr);
      RunOps(k.tlb, Tlb.DoLookup(v), Tlb.DoLookup(v), Tlb.DoAdd(v, MappedAt(k2, v).value));
    }
    hide Inv, GetTranslation, Mapped, Tlb.Lookup, Tlb.Add, Tlb.Run, HandleFault;
  }

  lemma {:induction false} InterruptOps(k: Machine, o: Account, e: Event)
    requires Inv(k, o) && !e.Touch? && Enabled(k, e)
    ensures Tlb.Ok(k.tlb) && Step(k, e).tlb == Tlb.Run(k.tlb, OpsOf(k, e))
  {
    InterruptBuffer(k, o, if e.Tick? then Timer else SyscallExit);
    OneOp(k.tlb, Tlb.DoFlush);
    OneOp(k.tlb, Tlb.DoSetAsid(Step(k, e).current));
    hide Inv, HandleInterrupt, Tlb.Run;
  }

  /** An event does to the buffer what its operations do. */
  lemma {:induction false} StepOps(k: Machine, o: Account, e: Event)
    requires Inv(k, o)
    ensures Tlb.Ok(k.tlb) && Step(k, e).tlb == Tlb.Run(k.tlb, OpsOf(k, e))
    ensures Step(k, e).cfg == k.cfg
  {
    var o' := StepKeeps(k, o, e);
    if !Enabled(k, e) {
    } else if !e.Touch? {
      InterruptOps(k, o, e);
    } else if k.cfg.tlbOn {
      EnabledCurrent(k, o, e);
      TouchOps(k, o, e.addr);
    } else {
      EnabledCurrent(k, o, e);
      TouchOff(k, o, e.addr);
    }
    hide Inv, Step, OpsOf, Tlb.Run;
  }

  lemma {:induction false} TouchOff(k: Machine, o: Account, addr: u64)
    requires Inv(k, o) && k.current != 0 && !k.cfg.tlbOn
    ensures Access(k, addr).1.tlb == k.tlb
  {
    RunningRoot(k, o);
  }

  /** The operations of a whole run. */
  ghost function BufferOps(k: Machine, es: seq<Event>): seq<Tlb.Op>
    decreases |es|
  {
    if es == [] then [] else (if Tlb.Ok(k.tlb) then OpsOf(k, es[0]) else []) + BufferOps(Step(k, es[0]), es[1..])
  }

  /** Over every run the buffer is what its operations make of it, so all that holds of every run of the
      buffer holds of the machine's. */
  lemma {:induction false} OpsOverRuns(k: Machine, o: Account, es: seq<Event>)
    requires Inv(k, o)
    ensures Tlb.Ok(k.tlb) && Run(k, es).tlb == Tlb.Run(k.tlb, BufferOps(k, es))
    decreases |es|
  {
    StepOps(k, o, if es == [] then Tick else es[0]);
    hide Inv, Step, OpsOf;
    if es == [] {
    } else {
      var o1 := StepKeeps(k, o, es[0]);
      OpsOverRuns(Step(k, es[0]), o1, es[1..]);
      Tlb.RunAppend(k.tlb, OpsOf(k, es[0]), BufferOps(Step(k, es[0]), es[1..]));
    }
  }

  /* ----- how often ----- */

  /** Flushes of a list of operations. */
  function Flushes(ops: seq<Tlb.Op>): nat {
    if ops == [] then 0 else (if ops[0].DoFlush? then 1 else 0) + Flushes(ops[1..])
  }

  lemma {:induction false} FlushesCounted(t: Tlb.State, ops: seq<Tlb.Op>)
    requires Tlb.Ok(t)
    ensures Tlb.Run(t, ops).stats.flushes == t.stats.flushes + Flushes(ops)
    decreases |ops|
  {
    if ops == [] {
    } else {
      Tlb.ApplyKeeps(t, ops[0]);
      FlushesCounted(Tlb.Apply(t, ops[0]), ops[1..]);
    }
  }

  lemma {:induction false} NoneFlushes(ops: seq<Tlb.Op>)
    requires Tlb.NoFlush(ops)
    ensures Flushes(ops) == 0
  {
    if ops == [] {
    } else {
      assert forall i :: 0 <= i < |ops[1..]| ==> ops[1..][i] == ops[i + 1];
      NoneFlushes(ops[1..]);
    }
  }

  lemma OpsFlush(k: Machine, e: Event)
    requires Tlb.Ok(k.tlb)
    ensures Flushes(OpsOf(k, e)) ==
            if k.cfg.tlbOn && !k.cfg.asidOn && Enabled(k, e) && !e.Touch? && Step(k, e).current != k.current then 1
            else 0
  {
    hide Step, Resident, MappedAt, Enabled;
    if Tlb.NoFlush(OpsOf(k, e)) {
      NoneFlushes(OpsOf(k, e));
    } else {
      assert OpsOf(k, e) == [Tlb.DoFlush] && [Tlb.DoFlush][1..] == [];
    }
  }

  lemma {:induction false} SameProcess(k: Machine, o: Account, e: Event)
    requires Inv(k, o) && (e.Touch? || !Enabled(k, e))
    ensures Step(k, e).current == k.current
  {
    StepQueue(k, o, e);
  }

  lemma {:induction false} StepFlushes(k: Machine, o: Account, e: Event)
    requires Inv(k, o)
    ensures Step(k, e).tlb.stats.flushes == k.tlb.stats.flushes +
            if k.cfg.tlbOn && !k.cfg.asidOn && Step(k, e).current != k.current then 1 else 0
  {
    hide Inv, Step, OpsOf, Tlb.Run, Flushes, Enabled;
    StepOps(k, o, e);
    FlushesCounted(k.tlb, OpsOf(k, e));
    OpsFlush(k, e);
    if e.Touch? || !Enabled(k, e) {
      SameProcess(k, o, e);
    }
  }

  /** Over every run, the buffer is flushed once for each change of process without address spaces, and never
      with them. */
  lemma {:induction false} FlushesOverRuns(k: Machine, o: Account, es: seq<Event>)
    requires Inv(k, o)
    ensures Run(k, es).tlb.stats.flushes == k.tlb.stats.flushes +
            if k.cfg.tlbOn && !k.cfg.asidOn then Switching(k, es) else 0
    decreases |es|
  {
    hide Inv, Step;
    if es == [] {
    } else {
      StepFlushes(k, o, es[0]);
      var o1 := StepKeeps(k, o, es[0]);
      FlushesOverRuns(Step(k, es[0]), o1, es[1..]);
    }
  }

  /* ----- which accesses hit, with address spaces ----- */

  /** The last n of a list. */
  function LastOf<T>(s: seq<T>, n: nat): seq<T> {
    if |s| <= n then s else s[|s| - n..]
  }

  /** Process and virtual page of an access that was answered. */
  ghost function Asked(k: Machine, e: Event): Option<(nat, nat)> {
    if e.Touch? && Enabled(k, e) && NoTrap(Answer(k, e)) then Some((k.current, VPage(e.addr))) else None
  }

  /** The last n different pages asked for, the one that came in first in front; asking again for one that
      is remembered changes nothing. */
  ghost function Recall(k: Machine, es: seq<Event>, c: seq<(nat, nat)>, n: nat): seq<(nat, nat)>
    decreases |es|
  {
    if es == [] then c else Recall(Step(k, es[0]), es[1..], RecallOne(Asked(k, es[0]), c, n), n)
  }

  ghost function RecallOne(asked: Option<(nat, nat)>, c: seq<(nat, nat)>, n: nat): seq<(nat, nat)> {
    if asked.None? || asked.value in c then c else LastOf(c + [asked.value], n)
  }

  /** The slots of a buffer, the one filled first in front. */
  function InOrder(t: Tlb.State): seq<Tlb.Slot>
    requires Tlb.Ok(t)
  {
    if t.population < |t.slots| then t.slots[..t.population] else t.slots[t.evict..] + t.slots[..t.evict]
  }

  function Keys(l: seq<Tlb.Slot>): seq<(nat, nat)> {
    seq(|l|, i requires 0 <= i < |l| => (l[i].asid, l[i].tag))
  }

  /** The buffer holds the translations of c, in that order. */
  ghost predicate Remembers(t: Tlb.State, c: seq<(nat, nat)>) {
    Tlb.Ok(t) && (t.population < |t.slots| ==> t.evict == 0) && c == Keys(InOrder(t))
  }

  lemma InOrderIn(t: Tlb.State, s: Tlb.Slot)
    requires Tlb.Ok(t)
    ensures s in InOrder(t) <==> exists i :: 0 <= i < t.population && t.slots[i] == s
  {
    if t.population == |t.slots| {
      assert t.slots == t.slots[..t.evict] + t.slots[t.evict..];
    }
  }

  lemma {:induction false} FoundIff(t: Tlb.State, c: seq<(nat, nat)>, v: nat)
    requires Remembers(t, c)
    ensures Tlb.Lookup(t, v).0.Some? <==> (t.asid, v) in c
  {
    var l := InOrder(t);
    var f := Tlb.Find(t, v, 0);
    if f.Some? {
      InOrderIn(t, t.slots[f.value]);
      var j :| 0 <= j < |l| && l[j] == t.slots[f.value];
      assert c[j] == (t.asid, v);
    }
    if (t.asid, v) in c {
      var j :| 0 <= j < |c| && c[j] == (t.asid, v);
      InOrderIn(t, l[j]);
      var i :| 0 <= i < t.population && t.slots[i] == l[j];
      assert Tlb.Matches(t.slots[i], v, t.asid);
    }
  }

  lemma Appended<T>(slots: seq<T>, p: nat, s: T)
    requires p < |slots|
    ensures slots[p := s][..p + 1] == slots[..p] + [s]
  {
  }

  lemma FromStart<T>(slots: seq<T>)
    ensures slots[0..] + slots[..0] == slots == slots[..|slots|]
  {
  }

  lemma Replaced<T>(slots: seq<T>, e: nat, s: T)
    requires e < |slots|
    ensures (slots[e..] + slots[..e] + [s])[1..] == slots[e + 1..] + (slots[..e] + [s])
    ensures slots[e := s][e + 1..] == slots[e + 1..] && slots[e := s][..e + 1] == slots[..e] + [s]
  {
  }

  lemma {:induction false} OrderStored(t: Tlb.State, s: Tlb.Slot)
    requires Tlb.Ok(t) && s.valid && (t.population < |t.slots| ==> t.evict == 0)
    ensures var u := Tlb.Store(t, s);
      && Tlb.Ok(u) && (u.population < |u.slots| ==> u.evict == 0)
      && InOrder(u) == LastOf(InOrder(t) + [s], |t.slots|)
  {
    Tlb.StoreKeeps(t, s);
    if t.population < |t.slots| {
      OrderAppended(t, s);
    } else {
      OrderReplaced(t, s);
    }
  }

  lemma {:induction false} OrderAppended(t: Tlb.State, s: Tlb.Slot)
    requires Tlb.Ok(t) && s.valid && t.population < |t.slots| && t.evict == 0
    ensures Tlb.Ok(Tlb.Store(t, s)) && InOrder(Tlb.Store(t, s)) == LastOf(InOrder(t) + [s], |t.slots|)
  {
    Tlb.StoreKeeps(t, s);
    var u, next := Tlb.Store(t, s), t.population + 1;
    Appended(t.slots, t.population, s);
    FromStart(u.slots);
    assert next == u.population;
  }

  lemma Around<T>(slots: seq<T>, e: nat, next: nat, s: T)
    requires e < |slots| && next == if e + 1 == |slots| then 0 else e + 1
    ensures var u := slots[e := s]; u[next..] + u[..next] == LastOf(slots[e..] + slots[..e] + [s], |slots|)
  {
    Replaced(slots, e, s);
    var all, u := slots[e..] + slots[..e] + [s], slots[e := s];
    assert LastOf(all, |slots|) == all[1..];
    if next == 0 {
      assert slots[e + 1..] == [] && u[..e + 1] == u;
      assert [] + (slots[..e] + [s]) == slots[..e] + [s];
      FromStart(u);
    }
  }

  lemma {:induction false} OrderReplaced(t: Tlb.State, s: Tlb.Slot)
    requires Tlb.Ok(t) && s.valid && t.population == |t.slots|
    ensures Tlb.Ok(Tlb.Store(t, s)) && InOrder(Tlb.Store(t, s)) == LastOf(InOrder(t) + [s], |t.slots|)
  {
    hide LastOf;
    Tlb.StoreKeeps(t, s);
    Tlb.NextSlot(t.evict, |t.slots|);
    Around(t.slots, t.evict, Tlb.Store(t, s).evict, s);
  }

  lemma KeysLast(l: seq<Tlb.Slot>, s: Tlb.Slot, n: nat)
    ensures Keys(LastOf(l + [s], n)) == LastOf(Keys(l) + [(s.asid, s.tag)], n)
  {
  }

  /** A slot that is filled is the last in order; from a full buffer the first in order goes. */
  lemma {:induction false} StoredLast(t: Tlb.State, c: seq<(nat, nat)>, s: Tlb.Slot)
    requires Remembers(t, c) && s.valid
    ensures Remembers(Tlb.Store(t, s), LastOf(c + [(s.asid, s.tag)], |t.slots|))
  {
    OrderStored(t, s);
    KeysLast(InOrder(t), s, |t.slots|);
    hide InOrder, Keys, LastOf, Tlb.Store;
  }

  /** An access is answered exactly when its page is mapped afterwards. */
  lemma {:induction false} AskedIff(k: Machine, o: Account, addr: u64)
    requires Inv(k, o) && k.current != 0
    ensures var e := Touch(addr);
      && Enabled(k, e) && |Answer(k, e)| == 1 && Step(k, e).current == k.current
      && Asked(k, e) == (if MappedAt(Step(k, e), VPage(addr)).Some? then Some((k.current, VPage(addr))) else None)
      && (MappedAt(k, VPage(addr)).Some? ==> Asked(k, e).Some?)
  {
    RunningRoot(k, o);
    var o' := AccessKeeps(k, o, addr);
    assert Answer(k, Touch(addr))[0] == Access(k, addr).0;
    hide Inv, Access;
  }

  /** What an access does to the buffer: found, it is counted as a hit and nothing moves; answered otherwise,
      one slot is filled; refused, nothing moves. A served fault makes for a second lookup. */
  ghost predicate TouchedBuffer(k: Machine, addr: u64, t: Tlb.State, u: Tlb.State, ppn: nat)
    requires Tlb.Ok(k.tlb)
  {
    var v, asked := VPage(addr), Asked(k, Touch(addr)).Some?;
    && Tlb.Ok(u) && SameSlots(k.tlb, u)
    && u.stats == k.tlb.stats.(lookups := k.tlb.stats.lookups + (if asked && MappedAt(k, v).None? then 2 else 1),
                               hits := k.tlb.stats.hits + if Resident(k, v) then 1 else 0)
    && (Resident(k, v) ==> asked)
    && t == if asked && !Resident(k, v) then Tlb.Store(u, Tlb.Slot(v, ppn, k.tlb.asid, true)) else u
  }

  lemma {:induction false} TouchBuffer(k: Machine, o: Account, addr: u64) returns (u: Tlb.State, ppn: nat)
    requires Inv(k, o) && k.current != 0 && k.cfg.tlbOn
    ensures Tlb.Ok(k.tlb) && TouchedBuffer(k, addr, Step(k, Touch(addr)).tlb, u, ppn)
  {
    var v, e := VPage(addr), Touch(addr);
    AskedIff(k, o, addr);
    StepOps(k, o, e);
    WhatIsFound(k, o, addr);
    CountedLookup(k.tlb, v);
    u, ppn := Tlb.Lookup(k.tlb, v).1, 0;
    CountedLookup(u, v);
    hide Inv, Step, Answer, Asked, MappedAt, Enabled, Tlb.Run, Tlb.Find;
    var look := Tlb.DoLookup(v);
    RunOps(k.tlb, look, look, look);
    if Resident(k, v) {
    } else if MappedAt(k, v).Some? {
      ppn := MappedAt(k, v).value;
      RunOps(k.tlb, look, Tlb.DoAdd(v, ppn), look);
    } else if MappedAt(Step(k, e), v).Some? {
      ppn := MappedAt(Step(k, e), v).value;
      RunOps(k.tlb, look, look, Tlb.DoAdd(v, ppn));
      u := Tlb.Lookup(u, v).1;
    }
  }

  lemma RememberSame(t: Tlb.State, u: Tlb.State, c: seq<(nat, nat)>)
    requires Remembers(t, c) && Tlb.Ok(u) && u.slots == t.slots && u.population == t.population && u.evict == t.evict
    ensures Remembers(u, c)
  {
  }

  /** Accesses to pages that are remembered. */
  ghost function Recalled(k: Machine, es: seq<Event>, c: seq<(nat, nat)>, n: nat): nat
    decreases |es|
  {
    if es == [] then 0
    else
      (if es[0].Touch? && Enabled(k, es[0]) && (k.current, VPage(es[0].addr)) in c then 1 else 0) +
      Recalled(Step(k, es[0]), es[1..], RecallOne(Asked(k, es[0]), c, n), n)
  }

  /** One event with address spaces: the buffer goes on to hold what is remembered. */
  lemma {:induction false} StepRemembers(k: Machine, o: Account, e: Event, c: seq<(nat, nat)>)
    requires Inv(k, o) && k.cfg.tlbOn && k.cfg.asidOn && Remembers(k.tlb, c)
    ensures var t := Step(k, e).tlb; var n := |k.tlb.slots|;
      && |t.slots| == n && Remembers(t, RecallOne(Asked(k, e), c, n))
      && t.stats.hits == k.tlb.stats.hits +
           if e.Touch? && Enabled(k, e) && (k.current, VPage(e.addr)) in c then 1 else 0
  {
    hide Remembers, LastOf, Step, Answer, MappedAt;
    if !Enabled(k, e) {
      Disabled(k, e);
    } else if e.Touch? {
      EnabledCurrent(k, o, e);
      AskedIff(k, o, e.addr);
      TouchRemembers(k, o, e.addr, c);
    } else {
      InterruptRemembers(k, o, e, c);
    }
    hide Inv;
  }

  lemma Disabled(k: Machine, e: Event)
    requires !Enabled(k, e)
    ensures Step(k, e) == k && Asked(k, e) == None
  {
  }

  lemma {:induction false} InterruptRemembers(k: Machine, o: Account, e: Event, c: seq<(nat, nat)>)
    requires Inv(k, o) && k.cfg.tlbOn && k.cfg.asidOn && Remembers(k.tlb, c) && Enabled(k, e) && !e.Touch?
    ensures var t := Step(k, e).tlb;
      |t.slots| == |k.tlb.slots| && Remembers(t, c) && t.stats.hits == k.tlb.stats.hits && Asked(k, e) == None
  {
    InterruptBuffer(k, o, if e.Tick? then Timer else SyscallExit);
    RememberSame(k.tlb, Step(k, e).tlb, c);
    hide Inv, HandleInterrupt, Remembers;
  }

  lemma {:induction false} TouchRemembers(k: Machine, o: Account, addr: u64, c: seq<(nat, nat)>)
    requires Inv(k, o) && k.current != 0 && k.cfg.tlbOn && k.cfg.asidOn && Remembers(k.tlb, c)
    ensures var t := Step(k, Touch(addr)).tlb; var n := |k.tlb.slots|;
      && |t.slots| == n && Remembers(t, RecallOne(Asked(k, Touch(addr)), c, n))
      && t.stats.hits == k.tlb.stats.hits + if (k.current, VPage(addr)) in c then 1 else 0
  {
    AskedIff(k, o, addr);
    var u, ppn := TouchBuffer(k, o, addr);
    var v := VPage(addr);
    FoundIff(k.tlb, c, v);
    RememberSame(k.tlb, u, c);
    StoredLast(u, c, Tlb.Slot(v, ppn, k.tlb.asid, true));
    assert k.tlb.asid == k.current;
    hide Inv, Step, Answer, MappedAt, Remembers, LastOf, Enabled;
  }

  /** With address spaces, whatever runs: the buffer holds the last different pages asked for, as many as it
      has slots, in order of arrival; so an access hits exactly when its page is among them, and that is
      what the statistics count. */
  lemma {:induction false} RecallOverRuns(k: Machine, o: Account, es: seq<Event>, c: seq<(nat, nat)>)
    requires Inv(k, o) && k.cfg.tlbOn && k.cfg.asidOn && Remembers(k.tlb, c)
    ensures var k', n := Run(k, es), |k.tlb.slots|;
      Remembers(k'.tlb, Recall(k, es, c, n)) && k'.tlb.stats.hits == k.tlb.stats.hits + Recalled(k, es, c, n)
    decreases |es|
  {
    hide Inv, Step, Remembers, Enabled, Asked, RecallOne;
    if es == [] {
    } else {
      StepRemembers(k, o, es[0], c);
      var o1 := StepKeeps(k, o, es[0]);
      RecallOverRuns(Step(k, es[0]), o1, es[1..], RecallOne(Asked(k, es[0]), c, |k.tlb.slots|));
    }
  }

  /** From boot on: which accesses hit. */
  lemma {:induction false} HitsFromBoot(cfg: Config, s: Memory.State, pids: seq<nat>, slots: seq<Tlb.Slot>,
          es: seq<Event>, v: nat)
    requires FreshMemory(s) && Distinct(pids) && 0 !in pids && slots != [] && BootTables(s, pids).Done?
    requires cfg.tlbOn && cfg.asidOn
    ensures var k0 := FreshMachine(cfg, BootTables(s, pids).s, pids, slots); var k := Run(k0, es);
      && Tlb.Ok(k.tlb) && (Resident(k, v) <==> (k.current, v) in Recall(k0, es, [], |slots|))
      && k.tlb.stats.hits == Recalled(k0, es, [], |slots|)
  {
    var o := Boot(cfg, s, pids, slots);
    var k0 := FreshMachine(cfg, BootTables(s, pids).s, pids, slots);
    assert slots[..0] == [] && Keys([]) == [];
    assert Remembers(k0.tlb, []);
    RecallOverRuns(k0, o, es, []);
    var o' := RunKeeps(k0, o, es);
    FoundIff(Run(k0, es).tlb, Recall(k0, es, [], |slots|), v);
    hide Inv, Remembers, Run, Recall, Recalled, BootTables;
    TagIsCurrent(Run(k0, es), o');
  }

  lemma TagIsCurrent(k: Machine, o: Account)
    requires Inv(k, o) && k.cfg.tlbOn && k.cfg.asidOn
    ensures k.tlb.asid == k.current
  {
  }

  /* ----- which accesses hit, when a switch flushes ----- */

  /** The buffer holds the pages c of process p, from the first slot on. */
  ghost predicate Gathered(t: Tlb.State, c: seq<(nat, nat)>, p: nat) {
    && Tlb.Ok(t) && |c| == t.population
    && forall i :: 0 <= i < t.population ==> c[i] == (p, t.slots[i].tag) && t.slots[i].asid == t.asid
  }

  lemma {:induction false} GatheredFound(t: Tlb.State, c: seq<(nat, nat)>, p: nat, v: nat)
    requires Gathered(t, c, p)
    ensures Tlb.Lookup(t, v).0.Some? <==> (p, v) in c
  {
    var f := Tlb.Find(t, v, 0);
    if f.Some? {
      assert c[f.value] == (p, v);
    }
    if (p, v) in c {
      var i :| 0 <= i < |c| && c[i] == (p, v);
      assert Tlb.Matches(t.slots[i], v, t.asid);
    }
  }

  lemma GatheredOne(t: Tlb.State, c: seq<(nat, nat)>, p: nat, v: nat, ppn: nat)
    requires Gathered(t, c, p) && t.population < |t.slots|
    ensures Gathered(Tlb.Store(t, Tlb.Slot(v, ppn, t.asid, true)), c + [(p, v)], p)
  {
  }

  lemma GatheredSame(t: Tlb.State, u: Tlb.State, c: seq<(nat, nat)>, p: nat)
    requires Gathered(t, c, p) && Tlb.Ok(u) && SameSlots(t, u)
    ensures Gathered(u, c, p)
  {
  }

  /** With room for all that is asked for, nothing is forgotten. */
  lemma {:induction false} RecallGrows(k: Machine, es: seq<Event>, c: seq<(nat, nat)>, n: nat)
    requires |c| + |es| <= n
    ensures |c| <= |Recall(k, es, c, n)|
    decreases |es|
  {
    hide Step, Asked;
    if es == [] {
    } else {
      RecallGrows(Step(k, es[0]), es[1..], RecallOne(Asked(k, es[0]), c, n), n);
    }
  }

  lemma {:induction false} StepGathers(k: Machine, o: Account, e: Event, c: seq<(nat, nat)>, n: nat)
    requires Inv(k, o) && k.cfg.tlbOn && !k.cfg.asidOn && Gathered(k.tlb, c, k.current)
    requires Step(k, e).current == k.current && |c| < n && |RecallOne(Asked(k, e), c, n)| <= |k.tlb.slots|
    ensures var t := Step(k, e).tlb;
      && |t.slots| == |k.tlb.slots| && Gathered(t, RecallOne(Asked(k, e), c, n), k.current)
      && t.stats.hits == k.tlb.stats.hits +
           if e.Touch? && Enabled(k, e) && (k.current, VPage(e.addr)) in c then 1 else 0
  {
    hide Gathered, Step, Answer, MappedAt;
    if !Enabled(k, e) {
      Disabled(k, e);
    } else if e.Touch? {
      EnabledCurrent(k, o, e);
      TouchGathers(k, o, e.addr, c, n);
    } else {
      InterruptGathers(k, o, e);
    }
    hide Inv;
  }

  lemma {:induction false} InterruptGathers(k: Machine, o: Account, e: Event)
    requires Inv(k, o) && k.cfg.tlbOn && !k.cfg.asidOn && Enabled(k, e) && !e.Touch?
    requires Step(k, e).current == k.current
    ensures Step(k, e).tlb == k.tlb && Asked(k, e) == None
  {
    InterruptBuffer(k, o, if e.Tick? then Timer else SyscallExit);
    hide Inv, HandleInterrupt;
  }

  lemma {:induction false} TouchGathers(k: Machine, o: Account, addr: u64, c: seq<(nat, nat)>, n: nat)
    requires Inv(k, o) && k.current != 0 && k.cfg.tlbOn && !k.cfg.asidOn && Gathered(k.tlb, c, k.current)
    requires |c| < n && |RecallOne(Asked(k, Touch(addr)), c, n)| <= |k.tlb.slots|
    ensures var t := Step(k, Touch(addr)).tlb;
      && |t.slots| == |k.tlb.slots| && Gathered(t, RecallOne(Asked(k, Touch(addr)), c, n), k.current)
      && t.stats.hits == k.tlb.stats.hits + if (k.current, VPage(addr)) in c then 1 else 0
  {
    AskedIff(k, o, addr);
    var u, ppn := TouchBuffer(k, o, addr);
    var v := VPage(addr);
    GatheredFound(k.tlb, c, k.current, v);
    GatheredSame(k.tlb, u, c, k.current);
    if Asked(k, Touch(addr)).Some? && !Resident(k, v) {
      assert |c| < |k.tlb.slots| && k.tlb.population == |c|;
      GatheredOne(u, c, k.current, v, ppn);
    }
    hide Inv, Step, Answer, MappedAt, Gathered, Enabled;
  }

  lemma {:induction false} GatherOverRuns(k: Machine, o: Account, es: seq<Event>, c: seq<(nat, nat)>, n: nat)
    requires Inv(k, o) && k.cfg.tlbOn && !k.cfg.asidOn && Gathered(k.tlb, c, k.current) && Switching(k, es) == 0
    requires |c| + |es| <= n && |Recall(k, es, c, n)| <= |k.tlb.slots|
    ensures var k' := Run(k, es);
      && k'.current == k.current && Gathered(k'.tlb, Recall(k, es, c, n), k.current)
      && k'.tlb.stats.hits == k.tlb.stats.hits + Recalled(k, es, c, n)
    decreases |es|
  {
    hide Inv, Step, Gathered, Enabled, Asked;
    if es == [] {
    } else {
      var k1, c1 := Step(k, es[0]), RecallOne(Asked(k, es[0]), c, n);
      RecallGrows(k1, es[1..], c1, n);
      StepGathers(k, o, es[0], c, n);
      var o1 := StepKeeps(k, o, es[0]);
      GatherOverRuns(k1, o1, es[1..], c1, n);
    }
  }

  /** Without address spaces, since the buffer was last emptied by a change of process and until the next: as
      long as the different pages asked for fit, an access hits exactly when its page was asked for before. */
  lemma {:induction false} HitsSinceSwitch(k: Machine, o: Account, es: seq<Event>, v: nat)
    requires Inv(k, o) && k.cfg.tlbOn && !k.cfg.asidOn && k.tlb.population == 0 && Switching(k, es) == 0
    requires |Recall(k, es, [], |es|)| <= |k.tlb.slots|
    ensures var k' := Run(k, es);
      && Tlb.Ok(k'.tlb) && (Resident(k', v) <==> (k.current, v) in Recall(k, es, [], |es|))
      && k'.tlb.stats.hits == k.tlb.stats.hits + Recalled(k, es, [], |es|)
  {
    assert Gathered(k.tlb, [], k.current);
    GatherOverRuns(k, o, es, [], |es|);
    GatheredFound(Run(k, es).tlb, Recall(k, es, [], |es|), k.current, v);
    hide Inv, Run, Recall, Recalled, Gathered;
    var o' := RunKeeps(k, o, es);
    BufferOk(Run(k, es), o');
  }

  lemma BufferOk(k: Machine, o: Account)
    requires Inv(k, o)
    ensures Tlb.Ok(k.tlb)
  {
  }

  /* ----- how many lookups ----- */

  /** Lookups of a run: one for each access, and a second when a fault was served. */
  ghost function Looked(k: Machine, es: seq<Event>): nat
    decreases |es|
  {
    if es == [] then 0
    else
      (if es[0].Touch? && Enabled(k, es[0]) then
         if MappedAt(k, VPage(es[0].addr)).None? && NoTrap(Answer(k, es[0])) then 2 else 1
       else 0) + Looked(Step(k, es[0]), es[1..])
  }

  lemma {:induction false} StepLooks(k: Machine, o: Account, e: Event)
    requires Inv(k, o) && k.cfg.tlbOn
    ensures Step(k, e).tlb.stats.lookups == k.tlb.stats.lookups + Looked(k, [e])
  {
    assert [e][1..] == [];
    if !Enabled(k, e) {
      Disabled(k, e);
    } else if e.Touch? {
      EnabledCurrent(k, o, e);
      AskedIff(k, o, e.addr);
      var u, ppn := TouchBuffer(k, o, e.addr);
    } else {
      InterruptBuffer(k, o, if e.Tick? then Timer else SyscallExit);
    }
    hide Inv, HandleInterrupt, Access, MappedAt;
  }

  lemma {:induction false} LookupsOverRuns(k: Machine, o: Account, es: seq<Event>)
    requires Inv(k, o) && k.cfg.tlbOn
    ensures Run(k, es).tlb.stats.lookups == k.tlb.stats.lookups + Looked(k, es)
    decreases |es|
  {
    hide Inv, Step, Answer, Enabled;
    if es == [] {
    } else {
      assert [es[0]][1..] == [];
      StepLooks(k, o, es[0]);
      var o1 := StepKeeps(k, o, es[0]);
      LookupsOverRuns(Step(k, es[0]), o1, es[1..]);
    }
  }
}
