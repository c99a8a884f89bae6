/**
Runs of the scheduler under any interleaving of its operations: placement is
kept, waiting is bounded, and an exited task never runs again.
 */
module SchedulerRuns {
  import opened Common
  import opened Scheduler

  /** The scheduler with the pid counter it spawns from. */
  datatype Sys = Sys(s: Sched, nextPid: nat)

  /** A call into the scheduler. `rsp` is the stack pointer a switch would save
      (or, for `SpawnTask`, the one the launch frame starts from). */
  datatype Op =
    | TimerTick(rsp: nat)
    | YieldNow(rsp: nat)
    | Exit(rsp: nat)
    | Block(rsp: nat)
    | SpawnTask(rsp: nat, slice: nat)
    | Wake(pid: Pid)

  /** The idle task only halts: it neither blocks nor exits. Pids do not run out. */
  predicate Enabled(x: Sys, op: Op) {
    match op
    case Exit(_) => x.s.current.Some? && x.s.current.value.pid != PID_IDLE
    case Block(_) => x.s.current.Some? && x.s.current.value.pid != PID_IDLE
    case SpawnTask(_, _) => x.nextPid < PID_MAX
    case _ => true
  }

  function Step(x: Sys, op: Op): Sys {
    match op
    case TimerTick(rsp) => x.(s := Tick(x.s, rsp))
    case YieldNow(rsp) => x.(s := Schedule(x.s, rsp))
    case Exit(rsp) => x.(s := ExitCurrent(x.s, rsp))
    case Block(rsp) => x.(s := BlockCurrent(x.s, rsp))
    case SpawnTask(rsp, slice) => Sys(Spawn(x.s, Process(rsp, x.nextPid, Ready, slice, slice)), x.nextPid + 1)
    case Wake(pid) => x.(s := Unblock(x.s, pid).0)
  }

  function Run(x: Sys, ops: seq<Op>): Sys
    decreases |ops|
  {
    if ops == [] then x else Run(Step(x, ops[0]), ops[1..])
  }

  ghost predicate Allowed(x: Sys, ops: seq<Op>)
    decreases |ops|
  {
    ops == [] || (Enabled(x, ops[0]) && Allowed(Step(x, ops[0]), ops[1..]))
  }

  ghost predicate Ok(x: Sys) {
    Placed(x.s, x.nextPid)
  }

  // ---------------------------------------------------------------------
  // Placement in every reachable state
  // ---------------------------------------------------------------------

  function Booted(idleRsp: nat): Sys {
    Sys(Init(EMPTY_SCHED, idleRsp).0, 2)
  }

  lemma BootedOk(idleRsp: nat)
    ensures Ok(Booted(idleRsp))
  {
  }

  lemma SpawnKeepsOk(x: Sys, op: Op)
    requires Ok(x) && op.SpawnTask?
    ensures Ok(Step(x, op))
  {
    var p := Process(op.rsp, x.nextPid, Ready, op.slice, op.slice);
    forall pid: Pid
      ensures Census(Step(x, op).s, pid) == Census(x.s, pid) + if pid == x.nextPid then 1 else 0
    {
      CountPush(x.s.ready, p, pid);
    }
    hide Census;
    assert Census(x.s, x.nextPid) == 0;
  }

  lemma WakeKeepsOk(x: Sys, pid: Pid)
    requires Ok(x)
    ensures Ok(Step(x, Wake(pid)))
  {
    var k := IndexOf(x.s.blocked, pid);
    if k < |x.s.blocked| {
      var p := x.s.blocked[k];
      forall q: Pid
        ensures Census(Step(x, Wake(pid)).s, q) == Census(x.s, q)
      {
        CountPush(x.s.ready, p.(state := Ready, remaining := p.slice), q);
        CountSwapRemove(x.s.blocked, k, q);
      }
    }
  }

  lemma CurrentChangeKeepsUnique(s: Sched, c: Process, nextPid: nat)
    requires Unique(s, nextPid) && s.current.Some? && c.pid == s.current.value.pid
    ensures Unique(s.(current := Some(c)), nextPid)
  {
    assert forall pid: Pid :: Census(s.(current := Some(c)), pid) == Census(s, pid);
  }

  lemma TickKeepsOk(x: Sys, rsp: nat)
    requires Ok(x)
    ensures Ok(Step(x, TimerTick(rsp)))
  {
    hide Schedule, Unique;
    var c := x.s.current.value;
    var c' := c.(remaining := if c.remaining > 0 then c.remaining - 1 else 0);
    CurrentChangeKeepsUnique(x.s, c', x.nextPid);
    var ticked := x.s.(current := Some(c'));
    assert ticked.(current := Some(c'.(state := Running))) == ticked;
    ScheduleKeepsPlaced(ticked, rsp, x.nextPid);
  }

  lemma MarkKeepsOk(x: Sys, c: Process, rsp: nat)
    requires Ok(x) && c.pid == x.s.current.value.pid && c.state != Ready
    requires c.state != Running ==> c.pid != PID_IDLE
    ensures Placed(Schedule(x.s.(current := Some(c)), rsp), x.nextPid)
  {
    hide Schedule, Unique;
    CurrentChangeKeepsUnique(x.s, c.(state := Running), x.nextPid);
    ScheduleKeepsPlaced(x.s.(current := Some(c)), rsp, x.nextPid);
  }

  /** Every operation keeps everybody in exactly one right place. */
  lemma StepKeepsOk(x: Sys, op: Op)
    requires Ok(x) && Enabled(x, op)
    ensures Ok(Step(x, op))
  {
    hide Schedule, Unique, Tick, Spawn, Unblock;
    var c := x.s.current.value;
    match op
    case TimerTick(rsp) => TickKeepsOk(x, rsp);
    case YieldNow(rsp) =>
      MarkKeepsOk(x, c, rsp);
      assert x.s.(current := Some(c)) == x.s;
    case Exit(rsp) => MarkKeepsOk(x, c.(state := Zombie, remaining := 0), rsp);
    case Block(rsp) => MarkKeepsOk(x, c.(state := Blocked), rsp);
    case SpawnTask(_, _) => SpawnKeepsOk(x, op);
    case Wake(pid) => WakeKeepsOk(x, pid);
  }

  /** The assumption on the idle task is exact: were it to block or exit,
      placement would be lost at once. */
  lemma IdleMustStay(x: Sys, op: Op)
    requires Ok(x) && (op.Exit? || op.Block?)
    ensures Ok(Step(x, op)) <==> Enabled(x, op)
  {
    if Enabled(x, op) {
      StepKeepsOk(x, op);
    } else {
      IdleParked(x, op);
    }
  }

  lemma IdleParked(x: Sys, op: Op)
    requires Ok(x) && (op.Exit? || op.Block?) && x.s.current.value.pid == PID_IDLE
    ensures !InState(Step(x, op).s)
  {
    hide Unique;
    var s' := Step(x, op).s;
    if x.s.ready != [] {
      var parked := if op.Exit? then s'.defunct else s'.blocked;
      assert parked[|parked| - 1].pid == PID_IDLE;
    }
  }

  lemma {:induction false} RunKeepsOk(x: Sys, ops: seq<Op>)
    requires Ok(x) && Allowed(x, ops)
    ensures Ok(Run(x, ops))
    decreases |ops|
  {
    hide Ok, Step;
    if ops != [] {
      StepKeepsOk(x, ops[0]);
      RunKeepsOk(Step(x, ops[0]), ops[1..]);
    }
  }

  /** After initialisation, under every run: each unreaped process is in exactly
      one of current, ready, blocked, idle and defunct, in the matching state. */
  lemma AlwaysPlaced(idleRsp: nat, ops: seq<Op>)
    requires Allowed(Booted(idleRsp), ops)
    ensures Ok(Run(Booted(idleRsp), ops))
  {
    BootedOk(idleRsp);
    RunKeepsOk(Booted(idleRsp), ops);
  }

  // ---------------------------------------------------------------------
  // Bounded waiting
  // ---------------------------------------------------------------------

  function AtLeastOne(n: nat): nat {
    if n == 0 then 1 else n
  }

  function Slices(ps: seq<Process>): nat {
    if ps == [] then 0 else AtLeastOne(ps[0].slice) + Slices(ps[1..])
  }

  /** The ticks the `k`-th task of the queue may have to wait. */
  function Wait(s: Sched, k: nat): nat
    requires s.current.Some? && k <= |s.ready|
  {
    AtLeastOne(s.current.value.remaining) + Slices(s.ready[..k])
  }

  function Ticks(ops: seq<Op>): nat {
    if ops == [] then 0 else (if ops[0].TimerTick? then 1 else 0) + Ticks(ops[1..])
  }

  ghost predicate IsCurrent(x: Sys, pid: Pid) {
    x.s.current.Some? && x.s.current.value.pid == pid
  }

  /** `pid` is in the queue, at most `w` ticks away from running. */
  ghost predicate Within(x: Sys, pid: Pid, w: int) {
    x.s.current.Some? && exists k: nat :: k < |x.s.ready| && x.s.ready[k].pid == pid && Wait(x.s, k) <= w
  }

  /** A scheduling decision brings everybody in the queue forward by the
      outgoing task's remaining time. */
  lemma ScheduleAdvances(s: Sched, saved: nat, k: nat)
    requires s.current.Some? && k < |s.ready|
    ensures var s' := Schedule(s, saved);
            s'.current.Some? &&
            if k == 0 then s'.current.value.pid == s.ready[0].pid
            else
              && k - 1 < |s'.ready| && s'.ready[k - 1].pid == s.ready[k].pid
              && Wait(s', k - 1) == Slices(s.ready[..k])
  {
    var s' := Schedule(s, saved);
    if k > 0 {
      assert s'.ready[..k - 1] == s.ready[1..k];
      assert s.ready[..k][1..] == s.ready[1..k];
    }
  }

  lemma QueueGrows(s: Sched, p: Process, k: nat)
    requires s.current.Some? && k < |s.ready|
    ensures Wait(s.(ready := s.ready + [p]), k) == Wait(s, k)
  {
    assert (s.ready + [p])[..k] == s.ready[..k];
  }

  lemma StepAdvances(x: Sys, op: Op, pid: Pid, w: int)
    requires Ok(x) && Enabled(x, op) && Within(x, pid, w)
    ensures IsCurrent(Step(x, op), pid) || Within(Step(x, op), pid, w - if op.TimerTick? then 1 else 0)
  {
    hide Schedule, Unique, AllIn, NoIdle, Slices;
    var k: nat :| k < |x.s.ready| && x.s.ready[k].pid == pid && Wait(x.s, k) <= w;
    var c := x.s.current.value;
    match op
    case TimerTick(rsp) =>
      var ticked := x.s.(current := Some(c.(remaining := if c.remaining > 0 then c.remaining - 1 else 0)));
      if ticked.current.value.remaining == 0 {
        DecisionAdvances(x, ticked, rsp, k, w - 1);
      } else {
        WithinBy(x.(s := ticked), k, w - 1);
      }
    case YieldNow(rsp) => DecisionAdvances(x, x.s, rsp, k, w);
    case Exit(rsp) => DecisionAdvances(x, x.s.(current := Some(c.(state := Zombie, remaining := 0))), rsp, k, w);
    case Block(rsp) => DecisionAdvances(x, x.s.(current := Some(c.(state := Blocked))), rsp, k, w);
    case SpawnTask(rsp, slice) =>
      QueueGrows(x.s, Process(rsp, x.nextPid, Ready, slice, slice), k);
      WithinBy(Step(x, op), k, w);
    case Wake(q) =>
      var j := IndexOf(x.s.blocked, q);
      if j < |x.s.blocked| {
        var p := x.s.blocked[j];
        QueueGrows(x.s, p.(state := Ready, remaining := p.slice), k);
      }
      WithinBy(Step(x, op), k, w);
  }

  lemma WithinBy(x: Sys, k: nat, w: int)
    requires x.s.current.Some? && k < |x.s.ready| && Wait(x.s, k) <= w
    ensures Within(x, x.s.ready[k].pid, w)
  {
  }

  /** After a decision, whoever was `k`-th runs or is `k - 1`-th. */
  lemma DecisionAdvances(x: Sys, s: Sched, saved: nat, k: nat, w: int)
    requires s.current.Some? && k < |s.ready| && Slices(s.ready[..k]) <= w
    ensures var x' := x.(s := Schedule(s, saved)); IsCurrent(x', s.ready[k].pid) || Within(x', s.ready[k].pid, w)
  {
    hide Schedule, Slices;
    ScheduleAdvances(s, saved, k);
    if k > 0 {
      WithinBy(x.(s := Schedule(s, saved)), k - 1, w);
    }
  }

  /** A task within `w` ticks of running has run once `w` ticks have passed. */
  lemma {:induction false} RunsWithin(x: Sys, ops: seq<Op>, pid: Pid, w: int) returns (n: nat)
    requires Ok(x) && Allowed(x, ops) && Within(x, pid, w) && Ticks(ops) >= w
    ensures n <= |ops| && IsCurrent(Run(x, ops[..n]), pid)
    decreases |ops|
  {
    hide Ok, Step, IsCurrent;
    if ops == [] {
      WaitIsPositive(x, pid, w);
      assert false;
    } else {
      var x' := Step(x, ops[0]);
      StepKeepsOk(x, ops[0]);
      StepAdvances(x, ops[0], pid, w);
      if IsCurrent(x', pid) {
        n := 1;
        assert ops[..1][1..] == [];
      } else {
        var m := RunsWithin(x', ops[1..], pid, w - if ops[0].TimerTick? then 1 else 0);
        n := m + 1;
        assert ops[..n][1..] == ops[1..][..m];
      }
    }
  }

  /** Bounded waiting: whatever else happens, the `k`-th task of the queue gets
      the processor no later than the ticks left to the current task and the
      slices of those ahead of it, each counted as at least one. */
  lemma BoundedWaiting(x: Sys, ops: seq<Op>, k: nat) returns (n: nat)
    requires Ok(x) && Allowed(x, ops) && k < |x.s.ready| && Ticks(ops) >= Wait(x.s, k)
    ensures n <= |ops| && IsCurrent(Run(x, ops[..n]), x.s.ready[k].pid)
  {
    hide Run, Allowed, IsCurrent;
    assert Within(x, x.s.ready[k].pid, Wait(x.s, k));
    n := RunsWithin(x, ops, x.s.ready[k].pid, Wait(x.s, k));
  }

  lemma WaitIsPositive(x: Sys, pid: Pid, w: int)
    requires Within(x, pid, w)
    ensures w >= 1
  {
  }

  // ---------------------------------------------------------------------
  // Exit is final
  // ---------------------------------------------------------------------

  /** How often a pid occurs where it could still be picked. */
  function Live(s: Sched, pid: Pid): nat {
    CountSlot(s.current, pid) + Count(s.ready, pid) + Count(s.blocked, pid) + CountSlot(s.idle, pid)
  }

  /** The pid was handed out and can no longer be picked: it is nowhere, or
      waits in `defunct` to be dropped. */
  ghost predicate Finished(x: Sys, pid: Pid) {
    pid < x.nextPid && Live(x.s, pid) == 0
  }

  lemma ParkLive(s: Sched, out: Process, pid: Pid)
    requires Live(s, pid) == 0 && (out.pid == pid ==> out.state == Zombie)
    ensures Live(Park(s, out), pid) == 0
  {
    hide Count;
    CountPush(s.ready, out.(state := Ready, remaining := out.slice), pid);
    CountPush(s.ready, out, pid);
    CountPush(s.blocked, out, pid);
  }

  lemma ScheduleKeepsFinished(s: Sched, saved: nat, pid: Pid)
    requires s.current.Some? && Live(s.(current := None), pid) == 0
    requires s.current.value.pid == pid ==> s.current.value.state == Zombie && PickNext(s).Some?
    ensures Live(Schedule(s, saved), pid) == 0
  {
    if PickNext(s).Some? {
      var (next, ready, idle) := PickNext(s).value;
      var taken := s.(defunct := [], ready := ready, idle := idle, current := None);
      assert Live(taken, pid) == 0 && next.pid != pid;
      hide Count;
      ParkLive(taken, s.current.value.(rsp := saved), pid);
    }
  }

  lemma ExitFinishes(x: Sys, rsp: nat)
    requires Ok(x) && Enabled(x, Exit(rsp))
    ensures Finished(Step(x, Exit(rsp)), x.s.current.value.pid)
  {
    var pid := x.s.current.value.pid;
    var marked := x.s.(current := Some(x.s.current.value.(state := Zombie, remaining := 0)));
    assert Census(x.s, pid) <= 1 && Census(x.s, pid) > 0;
    hide Schedule;
    ScheduleKeepsFinished(marked, rsp, pid);
  }

  lemma StepKeepsFinished(x: Sys, op: Op, pid: Pid)
    requires Ok(x) && Enabled(x, op) && Finished(x, pid)
    ensures Finished(Step(x, op), pid)
  {
    var c := x.s.current.value;
    hide Schedule, Unique;
    match op
    case TimerTick(rsp) =>
      var c' := c.(remaining := if c.remaining > 0 then c.remaining - 1 else 0);
      ScheduleKeepsFinished(x.s.(current := Some(c')), rsp, pid);
    case YieldNow(rsp) => ScheduleKeepsFinished(x.s, rsp, pid);
    case Exit(rsp) => ScheduleKeepsFinished(x.s.(current := Some(c.(state := Zombie, remaining := 0))), rsp, pid);
    case Block(rsp) => ScheduleKeepsFinished(x.s.(current := Some(c.(state := Blocked))), rsp, pid);
    case SpawnTask(rsp, slice) => CountPush(x.s.ready, Process(rsp, x.nextPid, Ready, slice, slice), pid);
    case Wake(q) =>
      var j := IndexOf(x.s.blocked, q);
      if j < |x.s.blocked| {
        var p := x.s.blocked[j];
        CountSplit(x.s.blocked, j, pid);
        CountPush(x.s.ready, p.(state := Ready, remaining := p.slice), pid);
        CountSwapRemove(x.s.blocked, j, pid);
      }
  }

  /** A task that has called exit is never current again, under any run: the
      code after its switch cannot be reached. */
  lemma {:induction false} ExitedNeverRuns(x: Sys, ops: seq<Op>, pid: Pid)
    requires Ok(x) && Allowed(x, ops) && Finished(x, pid)
    ensures !IsCurrent(Run(x, ops), pid)
    decreases |ops|
  {
    if ops != [] {
      hide Ok, Step;
      StepKeepsOk(x, ops[0]);
      StepKeepsFinished(x, ops[0], pid);
      ExitedNeverRuns(Step(x, ops[0]), ops[1..], pid);
    }
  }

  /** Only zombies are dropped: a process that a step loses was one. */
  lemma OnlyZombiesDropped(x: Sys, op: Op, pid: Pid)
    requires Ok(x) && Enabled(x, op)
    requires Census(x.s, pid) > 0 && Census(Step(x, op).s, pid) == 0
    ensures Count(x.s.defunct, pid) > 0 && AllIn(x.s.defunct, Zombie)
  {
    var c := x.s.current.value;
    hide Schedule, Unique;
    match op
    case TimerTick(rsp) =>
      var c' := c.(remaining := if c.remaining > 0 then c.remaining - 1 else 0);
      ScheduleCensus(x.s.(current := Some(c')), rsp, pid);
    case YieldNow(rsp) => ScheduleCensus(x.s, rsp, pid);
    case Exit(rsp) => ScheduleCensus(x.s.(current := Some(c.(state := Zombie, remaining := 0))), rsp, pid);
    case Block(rsp) => ScheduleCensus(x.s.(current := Some(c.(state := Blocked))), rsp, pid);
    case SpawnTask(rsp, slice) => CountPush(x.s.ready, Process(rsp, x.nextPid, Ready, slice, slice), pid);
    case Wake(q) =>
      var j := IndexOf(x.s.blocked, q);
      if j < |x.s.blocked| {
        var p := x.s.blocked[j];
        CountPush(x.s.ready, p.(state := Ready, remaining := p.slice), pid);
        CountSwapRemove(x.s.blocked, j, pid);
      }
  }
}
