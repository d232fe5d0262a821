/** Round robin as a plan made from the traces alone, and that the processor follows it. */
module RoundRobin {
  import opened Sv48
  import opened PageTable
  import opened Memory
  import opened Kernel
  import opened Runs
  import opened Tally
  import opened Schedule
  import Teardown

  /* ----- the plan ----- */

  /** A turn of a process: the addresses it accesses, and whether its trace is then done. */
  datatype Turn = Turn(pid: nat, slice: seq<u64>, done: bool)

  function Least(a: nat, b: nat): nat { if a < b then a else b }

  function TraceLeft(left: Traces, p: nat): seq<u64> {
    if p in left then left[p] else []
  }

  /** The next quantum of a trace, or the rest of it. */
  function TurnOf(p: nat, t: seq<u64>, quantum: nat): Turn {
    Turn(p, t[..Least(quantum, |t|)], |t| <= quantum)
  }

  /** The turns the processes in the queue take: the front runs, and goes to the back unless it is done. */
  function Turns(left: Traces, queue: seq<nat>, quantum: nat, n: nat): seq<Turn>
    decreases n
  {
    if n == 0 || queue == [] then []
    else
      var p := queue[0];
      var t := TraceLeft(left, p);
      var turn := TurnOf(p, t, quantum);
      [turn] + Turns(left[p := t[|turn.slice|..]], queue[1..] + if turn.done then [] else [p], quantum, n - 1)
  }

  function Tagged(p: nat, t: seq<u64>): seq<(nat, u64)> {
    seq(|t|, i requires 0 <= i < |t| => (p, t[i]))
  }

  function Touches(t: seq<u64>): seq<Event> {
    seq(|t|, i requires 0 <= i < |t| => Touch(t[i]))
  }

  /** The accesses of the turns, in order. */
  function LogOf(turns: seq<Turn>): seq<(nat, u64)> {
    if turns == [] then [] else Tagged(turns[0].pid, turns[0].slice) + LogOf(turns[1..])
  }

  /** The interrupt that ends a turn. */
  function Ending(turn: Turn): Event {
    if turn.done then Leave else Tick
  }

  /** What happens in the turns: the accesses of each, and one interrupt after it. */
  function EventsOf(turns: seq<Turn>): seq<Event> {
    if turns == [] then [] else Touches(turns[0].slice) + [Ending(turns[0])] + EventsOf(turns[1..])
  }

  /* ----- one turn ----- */

  /** Every access but the last was answered. */
  ghost predicate LastTraps(ts: seq<Translation>) {
    ts != [] && NoTrap(ts[..|ts| - 1]) && !ts[|ts| - 1].Translated?
  }

  lemma LastTrapsAfter(a: seq<Translation>, b: seq<Translation>)
    requires NoTrap(a) && LastTraps(b)
    ensures LastTraps(a + b)
  {
    assert (a + b)[..|a + b| - 1] == a + b[..|b| - 1];
    NoTrapParts(a, b[..|b| - 1]);
  }

  lemma TouchesCons(t: seq<u64>, m: nat)
    requires 0 < m <= |t|
    ensures Touches(t[..m]) == [Touch(t[0])] + Touches(t[1..][..m - 1])
    ensures forall p :: Tagged(p, t[..m]) == [(p, t[0])] + Tagged(p, t[1..][..m - 1])
    ensures t[m..] == t[1..][m - 1..]
  {
  }

  /** A burst has come from j to b by the first m accesses of trace t of process p. */
  ghost predicate Consumed(j: Job, b: Job, p: nat, t: seq<u64>, m: nat)
    requires m <= |t|
  {
    && b.k == Run(j.k, Touches(t[..m])) && b.log == j.log + Tagged(p, t[..m])
    && b.left == j.left[p := t[m..]] && b.k.current == p && b.k.ready == j.k.ready
    && (b.error.None? ==> NoTrap(Runs.Answers(j.k, Touches(t[..m]))))
    && (b.error.Some? ==> 0 < m && LastTraps(Runs.Answers(j.k, Touches(t[..m]))))
  }

  lemma {:induction false} ConsumedOne(j: Job, o: Account, whole: Traces) returns (o': Account)
    requires JobInv(j, o, whole) && j.k.current != 0 && LeftOf(j) != []
    ensures JobInv(Advance(j), o', whole) && Advance(j).k.current == j.k.current != 0
    ensures Advance(j).k.ready == j.k.ready && Advance(j).left == j.left[j.k.current := LeftOf(j)[1..]]
    ensures Advance(j).k == Step(j.k, Touch(LeftOf(j)[0])) && LeftOf(Advance(j)) == LeftOf(j)[1..]
    ensures Advance(j).log == j.log + [(j.k.current, LeftOf(j)[0])]
    ensures var ts := Answer(j.k, Touch(LeftOf(j)[0]));
      if Advance(j).error.None? then NoTrap(ts) else LastTraps(ts)
  {
    hide Inv, TracesOk, Advance, Step;
    o' := AdvanceKeeps(j, o, whole);
    assert [Access(j.k, LeftOf(j)[0]).0][..0] == [];
  }

  lemma ConsumedMore(j: Job, j1: Job, b: Job, p: nat, t: seq<u64>, m: nat)
    requires 0 < m <= |t| && Consumed(j1, b, p, t[1..], m - 1)
    requires j1.k == Step(j.k, Touch(t[0])) && j1.log == j.log + [(p, t[0])] && j1.left == j.left[p := t[1..]]
    requires j1.k.ready == j.k.ready && j1.error.None? && NoTrap(Answer(j.k, Touch(t[0])))
    ensures Consumed(j, b, p, t, m)
  {
    hide Step, Answer, NoTrap, LastTraps;
    TouchesCons(t, m);
    var rest := Touches(t[1..][..m - 1]);
    assert ([Touch(t[0])] + rest)[1..] == rest;
    assert Runs.Answers(j.k, [Touch(t[0])] + rest) == Answer(j.k, Touch(t[0])) + Runs.Answers(j1.k, rest);
    if b.error.None? {
      NoTrapParts(Answer(j.k, Touch(t[0])), Runs.Answers(j1.k, rest));
    } else {
      LastTrapsAfter(Answer(j.k, Touch(t[0])), Runs.Answers(j1.k, rest));
    }
    assert j1.left[p := t[1..][m - 1..]] == j.left[p := t[m..]];
  }

  /** A burst makes exactly n accesses, or the rest of the trace; or memory ran out at the last of fewer. */
  lemma {:induction false} BurstIs(j: Job, o: Account, whole: Traces, n: nat) returns (o': Account, m: nat)
    requires JobInv(j, o, whole) && j.k.current != 0 && j.k.current in j.left && j.error.None?
    ensures m <= Least(n, |LeftOf(j)|) && JobInv(Burst(j, n), o', whole)
    ensures Consumed(j, Burst(j, n), j.k.current, LeftOf(j), m)
    ensures Burst(j, n).error.None? ==> m == Least(n, |LeftOf(j)|)
    decreases n
  {
    hide Inv, TracesOk, Advance, Step, Answer;
    var p, t := j.k.current, LeftOf(j);
    o', m := o, 0;
    if n == 0 || t == [] {
      assert t[..0] == [] && t[0..] == t && j.left[p := t] == j.left;
    } else {
      var j1 := Advance(j);
      o' := ConsumedOne(j, o, whole);
      if j1.error.None? {
        var m1: nat;
        o', m1 := BurstIs(j1, o', whole, n - 1);
        m := m1 + 1;
        ConsumedMore(j, j1, Burst(j1, n - 1), p, t, m);
      } else {
        m := 1;
        assert Burst(j1, n - 1) == j1 && t[..1] == [t[0]] && Touches(t[..1]) == [Touch(t[0])];
        RunOne(j.k, Touch(t[0]));
      }
    }
  }

  /** The running process, and those that wait. */
  function Queue(k: Machine): seq<nat> {
    (if k.current != 0 then [k.current] else []) + k.ready
  }

  lemma QueueAfter(k: Machine, i: Interrupt)
    requires (i.SyscallExit? ==> k.current in k.mm.roots) && 0 !in Requeued(k, i).ready
    ensures Queue(HandleInterrupt(k, i)) == Requeued(k, i).ready
  {
    hide Requeued;
  }

  /** An interrupt ends a turn: the process leaves or goes to the back, and the front runs next. */
  lemma {:induction false} TurnEnds(b: Job, o: Account, whole: Traces, e: Event) returns (o': Account)
    requires JobInv(b, o, whole) && b.k.current != 0 && e == if LeftOf(b) == [] then Leave else Tick
    ensures JobInv(b.(k := Step(b.k, e)), o', whole) && Busy(Step(b.k, e)) && Answer(b.k, e) == []
    ensures Queue(Step(b.k, e)) == b.k.ready + if e.Leave? then [] else [b.k.current]
    ensures b.k.current in Step(b.k, e).mm.roots <==> e.Tick?
  {
    EndOfRound(b, o, whole, e);
    StepLeaves(b.k, o, e);
    TurnQueue(b.k, o, e);
    hide Sound, TlbCoherent, TracesOk, HandleInterrupt, Queue, Answer;
    RunningRoot(b.k, o);
    o' := StepKeeps(b.k, o, e);
  }

  lemma {:induction false} TurnQueue(k: Machine, o: Account, e: Event)
    requires Inv(k, o) && k.current != 0 && !e.Touch?
    ensures Queue(Step(k, e)) == k.ready + if e.Leave? then [] else [k.current]
  {
    hide Sound, TlbCoherent, Teardown.Terminate, HandleInterrupt;
    RunningRoot(k, o);
    QueueAfter(k, if e.Tick? then Timer else SyscallExit);
    assert k.ready + [] == k.ready;
  }

  /** What a round of job j has come to after the first m accesses of its turn. */
  ghost predicate Turned(j: Job, r: Job, turn: Turn, m: nat)
    requires m <= |turn.slice| <= |LeftOf(j)|
  {
    if r.error.None? then
      && m == |turn.slice| && Busy(r.k)
      && r.k == Run(j.k, Touches(turn.slice) + [Ending(turn)])
      && NoTrap(Runs.Answers(j.k, Touches(turn.slice) + [Ending(turn)]))
      && r.log == j.log + Tagged(turn.pid, turn.slice)
      && r.left == j.left[turn.pid := LeftOf(j)[|turn.slice|..]]
      && Queue(r.k) == j.k.ready + (if turn.done then [] else [turn.pid])
      && (turn.pid in r.k.mm.roots <==> !turn.done)
    else
      && 0 < m && r.k == Run(j.k, Touches(turn.slice[..m])) && r.log == j.log + Tagged(turn.pid, turn.slice[..m])
      && LastTraps(Runs.Answers(j.k, Touches(turn.slice[..m])))
  }

  /** A round is the turn of the running process: exactly a quantum of accesses, or the rest of its trace, and
      one interrupt; the process exits exactly when its trace is done. */
  lemma {:induction false} RoundIs(j: Job, o: Account, whole: Traces, quantum: nat) returns (o': Account, m: nat)
    requires JobInv(j, o, whole) && !Stopped(j)
    ensures var turn := TurnOf(j.k.current, LeftOf(j), quantum);
      && m <= |turn.slice| <= |LeftOf(j)| && Turned(j, Round(j, quantum), turn, m)
      && (Round(j, quantum).error.None? ==> JobInv(Round(j, quantum), o', whole))
  {
    hide Inv, TracesOk, Step, Answer, Run, Runs.Answers, NoTrap, LastTraps;
    HasTrace(j, o, whole);
    var p, t := j.k.current, LeftOf(j);
    var turn, b := TurnOf(p, t, quantum), Burst(j, quantum);
    o', m := BurstIs(j, o, whole, quantum);
    assert t[..m] == turn.slice[..m];
    if b.error.None? {
      assert turn.slice[..m] == turn.slice && LeftOf(b) == t[m..];
      assert Ending(turn) == if LeftOf(b) == [] then Leave else Tick;
      o' := TurnEnds(b, o', whole, Ending(turn));
      RunAppend(j.k, Touches(turn.slice), [Ending(turn)]);
      RunOne(b.k, Ending(turn));
      NoTrapParts(Runs.Answers(j.k, Touches(turn.slice)), []);
      NothingTraps();
    }
  }

  lemma NothingTraps()
    ensures NoTrap([])
  {
  }

  /* ----- the whole run ----- */

  /** From j to r by events es: those of the turns; or, when memory ran out, the first of them up to the access
      that trapped. */
  ghost predicate Follows(j: Job, r: Job, turns: seq<Turn>, es: seq<Event>) {
    && r.k == Run(j.k, es) && es <= EventsOf(turns) && r.log <= j.log + LogOf(turns)
    && (if r.error.None? then
          es == EventsOf(turns) && r.log == j.log + LogOf(turns) && NoTrap(Runs.Answers(j.k, es))
        else LastTraps(Runs.Answers(j.k, es)))
  }

  lemma SliceSplit(p: nat, t: seq<u64>, m: nat)
    requires m <= |t|
    ensures Touches(t) == Touches(t[..m]) + Touches(t[m..]) && Tagged(p, t) == Tagged(p, t[..m]) + Tagged(p, t[m..])
  {
  }

  lemma Regroup<T>(a: seq<T>, b: seq<T>, c: seq<T>)
    ensures a + b + c == a + (b + c) && a <= a + (b + c)
  {
  }

  lemma {:induction false} FollowsFirst(j: Job, r: Job, turns: seq<Turn>, m: nat)
    requires turns != [] && m <= |turns[0].slice| <= |LeftOf(j)| && Turned(j, r, turns[0], m) && r.error.Some?
    ensures Follows(j, r, turns, Touches(turns[0].slice[..m]))
  {
    hide Run, Runs.Answers, LastTraps, Touches, Tagged;
    var p, t := turns[0].pid, turns[0].slice;
    SliceSplit(p, t, m);
    Regroup(Touches(t[..m]), Touches(t[m..]), [Ending(turns[0])] + EventsOf(turns[1..]));
    Regroup(Touches(t), [Ending(turns[0])], EventsOf(turns[1..]));
    Regroup(Tagged(p, t[..m]), Tagged(p, t[m..]), LogOf(turns[1..]));
    Regroup(j.log, Tagged(p, t[..m]), Tagged(p, t[m..]) + LogOf(turns[1..]));
    Regroup(j.log + Tagged(p, t[..m]), Tagged(p, t[m..]), LogOf(turns[1..]));
  }

  lemma {:induction false} FollowsOn(j: Job, j1: Job, r: Job, turns: seq<Turn>, m: nat, es: seq<Event>)
    requires turns != [] && m <= |turns[0].slice| <= |LeftOf(j)| && Turned(j, j1, turns[0], m) && j1.error.None?
    requires Follows(j1, r, turns[1..], es)
    ensures Follows(j, r, turns, Touches(turns[0].slice) + [Ending(turns[0])] + es)
  {
    hide Run, Runs.Answers, LastTraps, NoTrap, Touches, Tagged;
    var first := Touches(turns[0].slice) + [Ending(turns[0])];
    RunAppend(j.k, first, es);
    if r.error.None? {
      NoTrapParts(Runs.Answers(j.k, first), Runs.Answers(j1.k, es));
    } else {
      LastTrapsAfter(Runs.Answers(j.k, first), Runs.Answers(j1.k, es));
    }
    assert j.log + (Tagged(turns[0].pid, turns[0].slice) + LogOf(turns[1..])) == j1.log + LogOf(turns[1..]);
  }

  /** Any number of rounds follow the plan. */
  lemma {:induction false} RoundsFollow(j: Job, o: Account, whole: Traces, quantum: nat, n: nat)
    returns (es: seq<Event>)
    requires JobInv(j, o, whole) && j.error.None? && Busy(j.k)
    ensures Follows(j, Rounds(j, quantum, n), Turns(j.left, Queue(j.k), quantum, n), es)
    decreases n
  {
    hide Inv, TracesOk, Round, Run, Runs.Answers, NoTrap, LastTraps, TurnOf;
    var turns := Turns(j.left, Queue(j.k), quantum, n);
    if n == 0 || j.k.current == 0 {
      es := [];
      RunNothing(j.k);
      NothingTraps();
      assert j.log + [] == j.log;
    } else {
      QueueFront(j, o, whole);
      var o1, m := RoundIs(j, o, whole, quantum);
      var j1 := Round(j, quantum);
      NextTurn(j.left, Queue(j.k), quantum, n);
      if j1.error.Some? {
        es := Touches(turns[0].slice[..m]);
        FollowsFirst(j, j1, turns, m);
        assert Rounds(j1, quantum, n - 1) == j1;
      } else {
        var rest := RoundsFollow(j1, o1, whole, quantum, n - 1);
        es := Touches(turns[0].slice) + [Ending(turns[0])] + rest;
        FollowsOn(j, j1, Rounds(j1, quantum, n - 1), turns, m, rest);
      }
    }
  }

  lemma NextTurn(left: Traces, queue: seq<nat>, quantum: nat, n: nat)
    requires 0 < n && queue != []
    ensures var p := queue[0]; var t := TraceLeft(left, p); var turn := TurnOf(p, t, quantum);
      && turn.pid == p && Turns(left, queue, quantum, n)[0] == turn && |turn.slice| <= |t|
      && Turns(left, queue, quantum, n)[1..] ==
         Turns(left[p := t[|turn.slice|..]], queue[1..] + if turn.done then [] else [p], quantum, n - 1)
  {
  }

  lemma RunNothing(k: Machine)
    ensures Run(k, []) == k && Runs.Answers(k, []) == []
  {
  }

  lemma QueueFront(j: Job, o: Account, whole: Traces)
    requires JobInv(j, o, whole) && j.k.current != 0
    ensures Queue(j.k)[0] == j.k.current && Queue(j.k)[1..] == j.k.ready
    ensures TraceLeft(j.left, j.k.current) == LeftOf(j)
  {
  }

  /** From the first interrupt on the whole run is the plan of round robin: its events are those of the turns,
      and what was accessed are their slices, in order; or memory ran out on the way. */
  lemma {:induction false} PlanFollowed(j: Job, o: Account, whole: Traces, quantum: nat) returns (es: seq<Event>)
    requires JobInv(j, o, whole) && j.error.None?
    ensures var n := Work(j.left, Remaining(j.k));
      Follows(Started(j), Rounds(Started(j), quantum, n), Turns(j.left, Queue(j.k), quantum, n), es)
    ensures Started(j).left == j.left && Started(j).log == j.log
  {
    hide JobInv, Started, Work, Remaining;
    var es0 := StartedKeeps(j, o, whole);
    LeadsKeeps(j, o, Started(j), o, whole, es0);
    StartedQueue(j, o, whole);
    es := RoundsFollow(Started(j), o, whole, quantum, Work(j.left, Remaining(j.k)));
  }

  lemma {:induction false} StartedQueue(j: Job, o: Account, whole: Traces)
    requires JobInv(j, o, whole)
    ensures Queue(Started(j).k) == Queue(j.k) && Started(j).left == j.left && Started(j).log == j.log
  {
    hide Sound, TlbCoherent, TracesOk;
    if j.k.current == 0 {
      QueueAfter(j.k, Timer);
    }
  }

  /** The accesses that round robin plans for the traces of the processes in queue. */
  ghost function PlannedLog(traces: Traces, queue: seq<nat>, quantum: nat): seq<(nat, u64)> {
    LogOf(Turns(traces, queue, quantum, Work(traces, queue)))
  }

  /** What was accessed is the plan, or, after an error, the first part of it. */
  ghost predicate KeepsPlan(log: seq<(nat, u64)>, plan: seq<(nat, u64)>, done: bool) {
    log <= plan && (done ==> log == plan)
  }

  /** From boot on, all that is accessed is what the plan says. */
  lemma {:induction false} PlanKept(j: Job, o: Account, whole: Traces, quantum: nat)
    requires JobInv(j, o, whole) && j.error.None? && j.log == [] && j.k.current == 0
    ensures var r := Rounds(Started(j), quantum, Work(j.left, Remaining(j.k)));
      KeepsPlan(r.log, PlannedLog(j.left, j.k.ready, quantum), r.error.None?)
  {
    hide JobInv, Started, Work, Rounds, Turns, LogOf, EventsOf;
    var es := PlanFollowed(j, o, whole, quantum);
    assert Queue(j.k) == j.k.ready == Remaining(j.k);
    NothingBefore(LogOf(Turns(j.left, Queue(j.k), quantum, Work(j.left, Remaining(j.k)))));
  }

  lemma NothingBefore<T>(s: seq<T>)
    ensures [] + s == s
  {
  }
}
