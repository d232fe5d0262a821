/** The processor: each process's trace runs for a time quantum, then an interrupt is raised. */
module Schedule {
  import opened Sv48
  import opened PageTable
  import opened Memory
  import opened Kernel
  import opened Runs
  import opened Tally
  import Teardown

  type Traces = map<nat, seq<u64>>

  /** The machine, what is left of each trace, the accesses made so far, and the exception that
      stopped the processor, if any. */
  datatype Job = Job(k: Machine, left: Traces, log: seq<(nat, u64)>, error: Option<Error>)

  function LeftOf(j: Job): seq<u64> {
    if j.k.current in j.left then j.left[j.k.current] else []
  }

  /** One access of the running process. */
  ghost function Advance(j: Job): Job
    requires LeftOf(j) != []
  {
    var p, addr := j.k.current, LeftOf(j)[0];
    if !Enabled(j.k, Touch(addr)) then j.(left := j.left[p := LeftOf(j)[1..]])
    else
      var (t, k') := Access(j.k, addr);
      Job(k', j.left[p := LeftOf(j)[1..]], j.log + [(p, addr)],
          if t.Translated? then None else if t.Trap? then Some(t.error) else None)
  }

  /** Up to n accesses of the running process, as long as its trace and the memory last. */
  ghost function Burst(j: Job, n: nat): Job
    decreases n
  {
    if n == 0 || j.error.Some? || LeftOf(j) == [] then j else Burst(Advance(j), n - 1)
  }

  /** A burst and the interrupt after it: an exit when the trace is done, else the timer. */
  ghost function Round(j: Job, quantum: nat): Job {
    var b := Burst(j, quantum);
    if b.error.Some? then b
    else b.(k := Step(b.k, if LeftOf(b) == [] then Leave else Tick))
  }

  ghost predicate Stopped(j: Job) {
    j.k.current == 0 || j.error.Some?
  }

  /** n rounds, or as many as there are. */
  ghost function Rounds(j: Job, quantum: nat, n: nat): Job
    decreases n
  {
    if n == 0 || Stopped(j) then j else Rounds(Round(j, quantum), quantum, n - 1)
  }

  /** A timer interrupt dispatches the first process. */
  ghost function Started(j: Job): Job {
    if j.k.current == 0 then j.(k := Step(j.k, Tick)) else j
  }

  /** The accesses of process p in a log, in order. */
  function TraceOf(log: seq<(nat, u64)>, p: nat): seq<u64> {
    if log == [] then []
    else TraceOf(log[..|log| - 1], p) + if log[|log| - 1].0 == p then [log[|log| - 1].1] else []
  }

  /** Each trace of whole is cut into what was accessed, in order, and what is left; a process that
      has ended has nothing left. */
  ghost predicate TracesOk(left: Traces, log: seq<(nat, u64)>, whole: Traces, roots: map<nat, nat>) {
    && left.Keys == whole.Keys
    && (forall p :: p in roots ==> p in whole)
    && (forall i :: 0 <= i < |log| ==> log[i].0 in whole)
    && (forall p :: p in whole ==> TraceOf(log, p) + left[p] == whole[p])
    && (forall p :: p in whole && p !in roots ==> left[p] == [])
  }

  /** What the processor keeps at every moment. */
  ghost predicate JobInv(j: Job, o: Account, whole: Traces) {
    Inv(j.k, o) && TracesOk(j.left, j.log, whole, j.k.mm.roots)
  }

  lemma {:induction false} TraceOfSnoc(log: seq<(nat, u64)>, q: nat, addr: u64, p: nat)
    ensures TraceOf(log + [(q, addr)], p) == TraceOf(log, p) + if q == p then [addr] else []
  {
    assert (log + [(q, addr)])[..|log|] == log;
  }

  lemma {:induction false} TracesAdvance(left: Traces, log: seq<(nat, u64)>, whole: Traces, roots: map<nat, nat>,
          p: nat)
    requires TracesOk(left, log, whole, roots) && p in left && left[p] != []
    ensures TracesOk(left[p := left[p][1..]], log + [(p, left[p][0])], whole, roots)
  {
    hide TraceOf;
    var addr := left[p][0];
    assert left[p] == [addr] + left[p][1..];
    forall q | q in whole
      ensures TraceOf(log + [(p, addr)], q) + left[p := left[p][1..]][q] == whole[q]
    {
      TraceOfSnoc(log, p, addr, q);
      assert TraceOf(log, q) + left[q] == whole[q];
      assert TraceOf(log, p) + [addr] + left[p][1..] == TraceOf(log, p) + left[p];
    }
  }

  /** The next access of the running process, as an event of the machine. */
  lemma {:induction false} AdvanceIsTouch(j: Job, o: Account)
    requires Inv(j.k, o) && j.k.current != 0 && LeftOf(j) != []
    ensures var p, addr := j.k.current, LeftOf(j)[0]; var e := Touch(addr); var t := Access(j.k, addr).0;
      && p in j.left && Enabled(j.k, e) && Answer(j.k, e) == [t] && Step(j.k, e) == Access(j.k, addr).1
      && Advance(j) == Job(Step(j.k, e), j.left[p := j.left[p][1..]], j.log + [(p, addr)],
                           if t.Translated? then None else if t.Trap? then Some(t.error) else None)
  {
    hide Access, HandleInterrupt;
    RunningRoot(j.k, o);
  }

  /** It is answered, or traps because memory is full. */
  lemma {:induction false} AdvanceKeeps(j: Job, o: Account, whole: Traces) returns (o': Account)
    requires JobInv(j, o, whole) && j.k.current != 0 && LeftOf(j) != []
    ensures JobInv(Advance(j), o', whole) && Population(Advance(j).k, o') == Population(j.k, o)
    ensures Advance(j).k == Step(j.k, Touch(LeftOf(j)[0])) && Advance(j).k.current == j.k.current
    ensures Advance(j).k.ready == j.k.ready && Advance(j).left == j.left[j.k.current := LeftOf(j)[1..]]
    ensures Tidy(o.role) && Advance(j).error.None? ==> Tidy(o'.role)
    ensures Advance(j).error.None? || Advance(j).error == Some(MemoryFull)
    ensures var e := Touch(LeftOf(j)[0]);
      && Enabled(j.k, e) && Advance(j).log == j.log + [(j.k.current, LeftOf(j)[0])]
      && (Advance(j).error.None? <==> NoTrap(Answer(j.k, e)))
  {
    AdvanceIsTouch(j, o);
    var p, addr := j.k.current, LeftOf(j)[0];
    o' := AccessKeeps(j.k, o, addr);
    AccessSummary(j.k, addr, Access(j.k, addr).0, Access(j.k, addr).1);
    TracesAdvance(j.left, j.log, whole, j.k.mm.roots, p);
    hide Inv, Access, AccessResult, Advance, Step, Answer, Enabled, TracesOk, Tidy;
    NoTrapOne(Answer(j.k, Touch(addr))[0]);
    assert Answer(j.k, Touch(addr)) == [Answer(j.k, Touch(addr))[0]];
  }

  lemma AccessSummary(k: Machine, addr: u64, t: Translation, k': Machine)
    requires AccessResult(k, addr, t, k')
    ensures k'.ready == k.ready && k'.current == k.current && k'.mm.roots == k.mm.roots
    ensures t.Translated? || t == Trap(MemoryFull)
  {
  }

  lemma NoTrapOne(t: Translation)
    ensures NoTrap([t]) <==> t.Translated?
  {
    assert [t][0] == t;
  }

  /** From j to a later job r of the same traces, by events es of the machine: what was logged are the
      accesses of es, and there is an error exactly when one of them trapped. */
  ghost predicate Leads(j: Job, o: Account, r: Job, o': Account, whole: Traces, es: seq<Event>) {
    && JobInv(r, o', whole) && Population(r.k, o') == Population(j.k, o)
    && r.k == Run(j.k, es) && r.log == j.log + Accesses(j.k, es)
    && (j.error.None? ==> (r.error.None? <==> NoTrap(Runs.Answers(j.k, es))))
    && (r.error.None? ==> j.error.None?)
    && (r.error == j.error || r.error == Some(MemoryFull))
    && (Tidy(o.role) && r.error.None? ==> Tidy(o'.role))
  }

  lemma {:induction false} LeadsOn(j: Job, o: Account, j1: Job, o1: Account, es1: seq<Event>, r: Job, o': Account,
          es: seq<Event>, whole: Traces)
    requires Leads(j, o, j1, o1, whole, es1) && Leads(j1, o1, r, o', whole, es)
    ensures Leads(j, o, r, o', whole, es1 + es)
  {
    hide JobInv, Population, Tidy, Run, Runs.Answers, Accesses, NoTrap;
    RunAppend(j.k, es1, es);
    NoTrapParts(Runs.Answers(j.k, es1), Runs.Answers(j1.k, es));
    assert j.log + (Accesses(j.k, es1) + Accesses(j1.k, es)) == j.log + Accesses(j.k, es1) + Accesses(j1.k, es);
  }

  /** The same process runs, the same wait, and only its trace got shorter. */
  predicate OnlyConsumes(j: Job, b: Job) {
    && b.k.current == j.k.current && b.k.ready == j.k.ready && b.left.Keys == j.left.Keys
    && |LeftOf(b)| <= |LeftOf(j)|
    && forall q :: q in j.left && q != j.k.current ==> b.left[q] == j.left[q]
  }

  /** A burst is a run of accesses of the running process. */
  lemma {:induction false} BurstKeeps(j: Job, o: Account, whole: Traces, n: nat) returns (o': Account, es: seq<Event>)
    requires JobInv(j, o, whole) && j.k.current != 0
    ensures Leads(j, o, Burst(j, n), o', whole, es) && OnlyConsumes(j, Burst(j, n))
    ensures n > 0 && j.error.None? && LeftOf(j) != [] ==> |LeftOf(Burst(j, n))| < |LeftOf(j)|
    decreases n, 1
  {
    hide Advance, Inv, TracesOk;
    o', es := o, [];
    if n > 0 && j.error.None? && LeftOf(j) != [] {
      var o1 := AdvanceLeads(j, o, whole);
      o', es := BurstFrom(j, o, Advance(j), o1, [Touch(LeftOf(j)[0])], whole, n - 1);
    }
  }

  lemma {:induction false} AdvanceLeads(j: Job, o: Account, whole: Traces) returns (o': Account)
    requires JobInv(j, o, whole) && j.k.current != 0 && LeftOf(j) != [] && j.error.None?
    ensures Leads(j, o, Advance(j), o', whole, [Touch(LeftOf(j)[0])])
    ensures OnlyConsumes(j, Advance(j)) && |LeftOf(Advance(j))| < |LeftOf(j)|
  {
    o' := AdvanceKeeps(j, o, whole);
    var e := Touch(LeftOf(j)[0]);
    RunOne(j.k, e);
  }

  lemma {:induction false} BurstFrom(j: Job, o: Account, j1: Job, o1: Account, es1: seq<Event>, whole: Traces, n: nat)
    returns (o': Account, es: seq<Event>)
    requires Leads(j, o, j1, o1, whole, es1) && OnlyConsumes(j, j1) && |LeftOf(j1)| < |LeftOf(j)| && j.k.current != 0
    ensures Leads(j, o, Burst(j1, n), o', whole, es) && OnlyConsumes(j, Burst(j1, n))
    ensures |LeftOf(Burst(j1, n))| < |LeftOf(j)|
    decreases n, 2
  {
    o', es := BurstKeeps(j1, o1, whole, n);
    LeadsOn(j, o, j1, o1, es1, Burst(j1, n), o', es, whole);
    es := es1 + es;
  }

  /** What remains to be done: the accesses left of the live processes, and their exits. */
  ghost function Work(left: Traces, pids: seq<nat>): nat
  {
    if pids == [] then 0
    else 1 + (if pids[0] in left then |left[pids[0]]| else 0) + Work(left, pids[1..])
  }

  lemma {:induction false} WorkAppend(left: Traces, a: seq<nat>, b: seq<nat>)
    ensures Work(left, a + b) == Work(left, a) + Work(left, b)
  {
    if a == [] {
      assert a + b == b;
    } else {
      assert (a + b)[1..] == a[1..] + b;
      WorkAppend(left, a[1..], b);
    }
  }

  lemma {:induction false} WorkSame(left: Traces, left': Traces, pids: seq<nat>)
    requires forall p :: p in pids ==> (p in left <==> p in left') && (p in left ==> left'[p] == left[p])
    ensures Work(left', pids) == Work(left, pids)
  {
    if pids == [] {
    } else {
      assert pids[0] in pids && forall p :: p in pids[1..] ==> p in pids;
      WorkSame(left, left', pids[1..]);
    }
  }

  /** A round keeps the invariant, is a run of the machine, and leaves less work. */
  lemma {:induction false} RoundKeeps(j: Job, o: Account, whole: Traces, quantum: nat)
    returns (o': Account, es: seq<Event>)
    requires JobInv(j, o, whole) && !Stopped(j) && quantum > 0
    ensures var r := Round(j, quantum);
      && Leads(j, o, r, o', whole, es)
      && (r.error.None? ==> Busy(r.k) && Work(r.left, Remaining(r.k)) < Work(j.left, Remaining(j.k)))
  {
    HasTrace(j, o, whole);
    hide Inv, JobInv, Burst, Work, Leads;
    var b := Burst(j, quantum);
    o', es := BurstKeeps(j, o, whole, quantum);
    LeadsKeeps(j, o, b, o', whole, es);
    if b.error.None? {
      var e := if LeftOf(b) == [] then Leave else Tick;
      var o1 := o';
      RoundWork(j, b, o1, whole, e);
      o' := InterruptLeads(b, o1, whole, e);
      LeadsOn(j, o, b, o1, es, Round(j, quantum), o', [e], whole);
      es := es + [e];
    }
  }

  lemma {:induction false} HasTrace(j: Job, o: Account, whole: Traces)
    requires JobInv(j, o, whole) && j.k.current != 0
    ensures j.k.current in j.left
  {
    RunningRoot(j.k, o);
  }

  lemma LeadsKeeps(j: Job, o: Account, r: Job, o': Account, whole: Traces, es: seq<Event>)
    requires Leads(j, o, r, o', whole, es)
    ensures JobInv(r, o', whole)
  {
  }

  /** The interrupt at the end of a round. */
  lemma {:induction false} InterruptLeads(b: Job, o: Account, whole: Traces, e: Event) returns (o': Account)
    requires JobInv(b, o, whole) && b.k.current != 0 && b.error.None? && e == if LeftOf(b) == [] then Leave else Tick
    ensures Leads(b, o, b.(k := Step(b.k, e)), o', whole, [e]) && Busy(Step(b.k, e))
  {
    EndOfRound(b, o, whole, e);
    hide Inv, TracesOk, Step, Answer, Enabled;
    o' := StepKeeps(b.k, o, e);
    RunOne(b.k, e);
    assert b.log + [] == b.log;
  }

  /** No process runs only when none waits. */
  predicate Busy(k: Machine) {
    k.current == 0 ==> k.ready == []
  }

  /** The interrupt after a burst: who remains, and that only a finished process leaves. */
  lemma {:induction false} EndOfRound(b: Job, o: Account, whole: Traces, e: Event)
    requires JobInv(b, o, whole) && b.k.current != 0 && e == if LeftOf(b) == [] then Leave else Tick
    ensures TracesOk(b.left, b.log, whole, Step(b.k, e).mm.roots)
    ensures Remaining(Step(b.k, e)) == Rotated(b.k.ready + if e.Tick? then [b.k.current] else [])
    ensures Answer(b.k, e) == [] && Busy(Step(b.k, e))
  {
    hide Sound, TlbCoherent, Teardown.Terminate, Rotated, Remaining;
    RunningRoot(b.k, o);
    Teardown.TerminateKind(b.k.mm, b.k.current);
    InterruptRotates(b.k, if e.Tick? then Timer else SyscallExit);
    assert b.k.ready + [] == b.k.ready;
  }

  /** The process at the front of the queue runs next. */
  lemma {:induction false} InterruptRotates(k: Machine, i: Interrupt)
    requires (i.SyscallExit? ==> k.current in k.mm.roots) && 0 !in Requeued(k, i).ready
    ensures var k' := HandleInterrupt(k, i);
      && Remaining(k') == Rotated(Requeued(k, i).ready) && Busy(k') && k'.mm == Requeued(k, i).mm
  {
    hide Requeued;
  }

  /** A queue with its front moved to the end. */
  function Rotated(q: seq<nat>): seq<nat> {
    if q == [] then [] else q[1..] + [q[0]]
  }

  lemma {:induction false} WorkRotated(left: Traces, q: seq<nat>)
    ensures Work(left, Rotated(q)) == Work(left, q)
  {
    if q != [] {
      assert q == [q[0]] + q[1..];
      WorkAppend(left, [q[0]], q[1..]);
      WorkAppend(left, q[1..], [q[0]]);
    }
  }

  lemma {:induction false} RoundWork(j: Job, b: Job, o: Account, whole: Traces, e: Event)
    requires JobInv(b, o, whole) && j.k.current != 0 && OnlyConsumes(j, b)
    requires e == if LeftOf(b) == [] then Leave else Tick
    requires j.k.current in j.left && (LeftOf(b) != [] ==> |LeftOf(b)| < |LeftOf(j)|)
    ensures Work(b.left, Remaining(Step(b.k, e))) < Work(j.left, Remaining(j.k))
  {
    var p, ready := j.k.current, j.k.ready;
    EndOfRound(b, o, whole, e);
    WorkOne(j.left, p);
    WorkOne(b.left, p);
    WorkAppend(j.left, ready, [p]);
    WorkAppend(b.left, ready, [p]);
    assert forall q :: q in ready ==> q != p && q in b.k.mm.roots;
    WorkSame(j.left, b.left, ready);
    WorkRotated(b.left, ready + if e.Tick? then [p] else []);
    assert ready + [] == ready;
  }

  lemma WorkOne(left: Traces, p: nat)
    requires p in left
    ensures Work(left, [p]) == 1 + |left[p]|
  {
    assert [p][1..] == [];
  }

  /* ----- the whole run ----- */

  /** Any number of rounds. */
  lemma {:induction false} RoundsKeep(j: Job, o: Account, whole: Traces, quantum: nat, n: nat)
    returns (o': Account, es: seq<Event>)
    requires JobInv(j, o, whole) && quantum > 0 && Busy(j.k)
    ensures RoundsResult(j, o, Rounds(j, quantum, n), o', whole, es, n)
    decreases n, 1
  {
    hide Inv, Round, TracesOk;
    o', es := o, [];
    if n > 0 && !Stopped(j) {
      var o1, es1 := RoundKeeps(j, o, whole, quantum);
      o', es := RoundsFrom(j, o, Round(j, quantum), o1, es1, whole, quantum, n - 1);
    }
  }

  ghost predicate RoundsResult(j: Job, o: Account, r: Job, o': Account, whole: Traces, es: seq<Event>, n: nat) {
    && Leads(j, o, r, o', whole, es)
    && (r.error.None? ==> Busy(r.k))
    && (Stopped(r) || n + Work(r.left, Remaining(r.k)) <= Work(j.left, Remaining(j.k)))
  }

  lemma {:induction false} RoundsFrom(j: Job, o: Account, j1: Job, o1: Account, es1: seq<Event>, whole: Traces,
          quantum: nat, n: nat)
    returns (o': Account, es: seq<Event>)
    requires Leads(j, o, j1, o1, whole, es1) && quantum > 0
    requires j1.error.None? ==> Busy(j1.k) && Work(j1.left, Remaining(j1.k)) < Work(j.left, Remaining(j.k))
    ensures RoundsResult(j, o, Rounds(j1, quantum, n), o', whole, es, n + 1)
    decreases n, 2
  {
    if j1.error.Some? {
      o', es := o1, es1;
    } else {
      o', es := RoundsKeep(j1, o1, whole, quantum, n);
      LeadsOn(j, o, j1, o1, es1, Rounds(j1, quantum, n), o', es, whole);
      es := es1 + es;
    }
  }

  /** The interrupt that starts the processor only moves the front of the queue. */
  lemma {:induction false} StartedKeeps(j: Job, o: Account, whole: Traces) returns (es: seq<Event>)
    requires JobInv(j, o, whole) && j.error.None?
    ensures Leads(j, o, Started(j), o, whole, es)
    ensures Busy(Started(j).k) && Started(j).error.None?
    ensures Work(Started(j).left, Remaining(Started(j).k)) == Work(j.left, Remaining(j.k))
  {
    hide Inv, TracesOk, Step, Work, Answer, Run, Accesses, Runs.Answers, Rotated, NoTrap;
    assert j.log + [] == j.log;
    if j.k.current == 0 {
      es := [Tick];
      FirstTick(j.k, o);
      RunOne(j.k, Tick);
      WorkRotated(j.left, j.k.ready);
    } else {
      es := [];
      NoEvents(j.k);
    }
  }

  lemma NoEvents(k: Machine)
    ensures Run(k, []) == k && Runs.Answers(k, []) == [] && Accesses(k, []) == [] && NoTrap([])
  {
  }

  lemma {:induction false} FirstTick(k: Machine, o: Account)
    requires Inv(k, o) && k.current == 0
    ensures var k' := Step(k, Tick);
      && Inv(k', o) && k'.mm.roots == k.mm.roots && Population(k', o) == Population(k, o)
      && Busy(k') && Remaining(k) == k.ready && Remaining(k') == Rotated(k.ready)
      && Answer(k, Tick) == [] && NoTrap([])
  {
    hide Sound, TlbCoherent;
    InterruptKeeps(k, o, Timer);
  }

  /** In es every process of machine k exits, and none twice. */
  ghost predicate EachExits(k: Machine, es: seq<Event>) {
    Distinct(Leavers(k, es)) && forall p :: p in Leavers(k, es) <==> p in k.mm.roots
  }

  lemma {:induction false} AllExited(j: Job, o: Account, r: Job, o': Account, whole: Traces, es: seq<Event>)
    requires JobInv(j, o, whole) && Leads(j, o, r, o', whole, es) && r.k.mm.roots == map[]
    ensures EachExits(j.k, es)
  {
    hide Inv, TracesOk, Run, Leavers;
    LeaversOverRuns(j.k, o, es);
  }

  /** The processor stops, after no more rounds than there are accesses and processes; unless memory
      ran out, every trace was then accessed to its end, in order and once, and every process ended, once. */
  lemma {:induction false} RunCompletes(j: Job, o: Account, whole: Traces, quantum: nat, n: nat)
    returns (o': Account, es: seq<Event>)
    requires JobInv(j, o, whole) && quantum > 0 && j.error.None? && Busy(j.k)
    requires n >= Work(j.left, Remaining(j.k))
    ensures var r := Rounds(j, quantum, n);
      && Stopped(r) && Leads(j, o, r, o', whole, es)
      && (r.error.Some? ==> r.error == Some(MemoryFull))
      && (r.error.None? ==>
            && r.k.ready == [] && r.k.mm.roots == map[] && EachExits(j.k, es)
            && (forall p :: p in whole ==> TraceOf(r.log, p) == whole[p] && p in r.left && r.left[p] == []))
  {
    hide Rounds, Population, Run, Accesses, Runs.Answers, NoTrap, EachExits;
    o', es := RoundsKeep(j, o, whole, quantum, n);
    var r := Rounds(j, quantum, n);
    if !Stopped(r) {
      WorkAppend(r.left, r.k.ready, [r.k.current]);
    } else if r.error.None? {
      AllEnded(r, o', whole);
      AllExited(j, o, r, o', whole, es);
    }
  }

  /** When no process is left, every trace has been accessed to its end. */
  lemma {:induction false} AllEnded(r: Job, o: Account, whole: Traces)
    requires JobInv(r, o, whole) && r.k.current == 0 && Busy(r.k)
    ensures r.k.ready == [] && r.k.mm.roots == map[]
    ensures forall p :: p in whole ==> TraceOf(r.log, p) == whole[p] && p in r.left && r.left[p] == []
  {
    hide Sound, TlbCoherent, TraceOf;
    assert forall p :: p !in r.k.mm.roots;
    forall p | p in whole
      ensures TraceOf(r.log, p) == whole[p] && p in r.left && r.left[p] == []
    {
      assert TraceOf(r.log, p) + [] == TraceOf(r.log, p);
    }
  }

  /** The same from the first interrupt on. */
  lemma {:induction false} WholeRun(j: Job, o: Account, whole: Traces, quantum: nat)
    returns (o': Account, es: seq<Event>)
    requires JobInv(j, o, whole) && quantum > 0 && j.error.None?
    ensures var r := Rounds(Started(j), quantum, Work(j.left, Remaining(j.k)));
      && Stopped(r) && Leads(j, o, r, o', whole, es)
      && (r.error.Some? ==> r.error == Some(MemoryFull))
      && (r.error.None? ==>
            && r.k.ready == [] && r.k.mm.roots == map[] && EachExits(j.k, es)
            && (forall p :: p in whole ==> TraceOf(r.log, p) == whole[p] && p in r.left && r.left[p] == []))
  {
    hide Inv, TracesOk, Started, Stopped, TraceOf, EachExits;
    var n := Work(j.left, Remaining(j.k));
    var es0 := StartedKeeps(j, o, whole);
    o', es := RunCompletes(Started(j), o, whole, quantum, n);
    LeadsOn(j, o, Started(j), o, es0, Rounds(Started(j), quantum, n), o', es, whole);
    es := es0 + es;
    if Rounds(Started(j), quantum, n).error.None? {
      AllExited(j, o, Rounds(Started(j), quantum, n), o', whole, es);
    }
  }

  /* ----- how many accesses ----- */

  /** The accesses of the traces of pids, altogether. */
  function Lengths(traces: Traces, pids: seq<nat>): nat {
    if pids == [] then 0 else (if pids[0] in traces then |traces[pids[0]]| else 0) + Lengths(traces, pids[1..])
  }

  /** The accesses of pids in a log. */
  function Logged(log: seq<(nat, u64)>, pids: seq<nat>): nat {
    if pids == [] then 0 else |TraceOf(log, pids[0])| + Logged(log, pids[1..])
  }

  lemma {:induction false} LoggedSnoc(log: seq<(nat, u64)>, q: nat, addr: u64, pids: seq<nat>)
    requires Distinct(pids)
    ensures Logged(log + [(q, addr)], pids) == Logged(log, pids) + if q in pids then 1 else 0
    decreases |pids|
  {
    if pids == [] {
    } else {
      assert pids == [pids[0]] + pids[1..] && pids[0] !in pids[1..];
      TraceOfSnoc(log, q, addr, pids[0]);
      LoggedSnoc(log, q, addr, pids[1..]);
    }
  }

  lemma {:induction false} LoggedAll(log: seq<(nat, u64)>, pids: seq<nat>)
    requires Distinct(pids) && forall i :: 0 <= i < |log| ==> log[i].0 in pids
    ensures Logged(log, pids) == |log|
    decreases |log|
  {
    if log == [] {
      LoggedNone(pids);
    } else {
      var k := |log| - 1;
      LoggedAll(log[..k], pids);
      assert log == log[..k] + [(log[k].0, log[k].1)];
      LoggedSnoc(log[..k], log[k].0, log[k].1, pids);
    }
  }

  lemma {:induction false} LoggedNone(pids: seq<nat>)
    ensures Logged([], pids) == 0
  {
    if pids == [] {
    } else {
      LoggedNone(pids[1..]);
    }
  }

  lemma {:induction false} LoggedFits(left: Traces, log: seq<(nat, u64)>, whole: Traces, roots: map<nat, nat>,
          pids: seq<nat>)
    requires TracesOk(left, log, whole, roots) && forall p :: p in pids ==> p in whole
    ensures Logged(log, pids) <= Lengths(whole, pids)
    decreases |pids|
  {
    if pids == [] {
    } else {
      assert pids[0] in pids && |TraceOf(log, pids[0]) + left[pids[0]]| == |whole[pids[0]]|;
      LoggedFits(left, log, whole, roots, pids[1..]);
    }
  }

  /** No more accesses are made than the traces hold. */
  lemma {:induction false} LogFits(left: Traces, log: seq<(nat, u64)>, whole: Traces, roots: map<nat, nat>,
          pids: seq<nat>)
    requires TracesOk(left, log, whole, roots) && Distinct(pids) && forall p :: p in pids <==> p in whole
    ensures |log| <= Lengths(whole, pids)
  {
    LoggedAll(log, pids);
    LoggedFits(left, log, whole, roots, pids);
  }

  /** A log is empty exactly when every trace that was accessed to its end is. */
  lemma {:induction false} LogEmptyIff(log: seq<(nat, u64)>, whole: Traces)
    requires forall i :: 0 <= i < |log| ==> log[i].0 in whole
    requires forall p :: p in whole ==> TraceOf(log, p) == whole[p]
    ensures log == [] <==> forall p :: p in whole ==> whole[p] == []
  {
    if log != [] {
      var k := |log| - 1;
      var p := log[k].0;
      assert |TraceOf(log, p)| > 0;
    }
  }
}
